/**
 * What the fair queue guarantees in every reachable state and over every run.
 */
module FairQueueTheorems {
  import opened FairQueueModel
  import opened Lists

  // ---- every step keeps the invariant ----

  /** Virtual time is the least time of any busy flow, or zero when the queue is idle. */
  lemma CurrentTimeIsLeastBusy(q: Queue)
    requires Inv(q)
    ensures forall f :: f in q.time && Busy(q, f) ==> CurrentTime(q) <= q.time[f]
    ensures (exists f :: f in q.time && Busy(q, f) && CurrentTime(q) == q.time[f])
            || (CurrentTime(q) == 0 && forall f :: f in q.time ==> !Busy(q, f))
  {
    FirstIsLeast(q);
    if q.sending != null {
      assert Busy(q, q.sending);
    } else {
      if q.previous != null { assert Busy(q, q.previous); }
      if q.tree != [] { assert Busy(q, q.tree[0]); }
    }
  }

  lemma FirstIsLeast(q: Queue)
    requires Inv(q)
    ensures q.tree != [] ==> q.tree[0] in q.queued && forall f :: f in q.queued ==> q.time[q.tree[0]] <= q.time[f]
  {
    assert q.tree != [] ==> q.tree[0] in q.tree;
    forall f | f in q.queued ensures q.time[q.tree[0]] <= q.time[f] {
      var k :| 0 <= k < |q.tree| && q.tree[k] == f;
      assert k > 0 ==> Before(q.time, q.tree[0], q.tree[k]);
    }
  }

  /**
   * A rebase never clamps a queued flow, leaves the finished flow at its exact
   * integer time inside the 64-bit range, and keeps the tree sorted although
   * every key in it changes in place.
   */
  lemma RebaseIsExact(q: Queue)
    requires Inv(q) && q.sending != null
    ensures
      var amount := q.weight + q.sendingLen;
      var sub := Subtract(q, q.sending, amount);
      && 0 <= q.time[q.sending] + amount - sub <= MAX_TIME
      && (forall f :: f in q.queued ==> sub <= q.time[f])
      && var time := Increment(q, q.sending, amount);
         && time[q.sending] == q.time[q.sending] + amount - sub
         && (forall f :: f in q.queued ==> time[f] == q.time[f] - sub)
         && (forall f :: f in time ==> 0 <= time[f] <= MAX_TIME)
         && Sorted(time, q.tree)
  {
    FirstIsLeast(q);
  }

  lemma ScheduleKeepsTree(q: Queue)
    requires TreeOk(q) && q.tree != [] && q.tree[0] in q.queued
    ensures TreeOk(Schedule(q))
    ensures forall g :: g in Schedule(q).queued ==> g in q.queued && q.time[q.tree[0]] <= q.time[g]
  {
    var q' := Schedule(q);
    forall f | f in q'.tree ensures f in q.tree && Before(q.time, q.tree[0], f) {
      var k :| 0 <= k < |q'.tree| && q'.tree[k] == f;
      assert f == q.tree[k + 1];
    }
    forall f | f in q'.queued ensures f in q'.tree {
      assert f in q.tree;
    }
  }

  lemma ScheduleKeepsInv(q: Queue)
    requires 0 < q.weight && q.weight + q.mtu <= MAX_TIME
    requires FlowsOk(q) && TreeOk(q) && q.tree != []
    requires q.sending == null && q.previous == null && !q.job
    ensures q.tree[0] in q.queued && Inv(Schedule(q))
  {
    assert q.tree[0] in q.tree;
    ScheduleKeepsTree(q);
    assert q.queued[q.tree[0]] <= q.mtu;
    hide FlowsOk, TreeOk, Sorted;
  }

  lemma EnqueueKeepsTree(q: Queue, f: Flow, len: nat)
    requires Inv(q) && Enabled(q, Submit(f, len))
    ensures TreeOk(EnqueueStep(q, f, len))
  {
    var time := EnqueueStep(q, f, len).time;
    assert Sorted(time, q.tree) by {
      forall i, j | 0 <= i < j < |q.tree| ensures Before(time, q.tree[i], q.tree[j]) {
        assert Before(q.time, q.tree[i], q.tree[j]);
        assert q.tree[i] in q.tree && q.tree[j] in q.tree;
      }
    }
    InsertSorted(time, q.tree, f);
  }

  lemma EnqueueKeepsFlows(q: Queue, f: Flow, len: nat)
    requires Inv(q) && Enabled(q, Submit(f, len))
    ensures FlowsOk(EnqueueStep(q, f, len))
    ensures EnqueueStep(q, f, len).time[f] <= MAX_TIME
    ensures q.sending != null ==> q.time[q.sending] <= EnqueueStep(q, f, len).time[f]
  {
    CurrentTimeIsLeastBusy(q);
  }

  lemma SubmitKeepsInv(q: Queue, f: Flow, len: nat)
    requires Inv(q) && Enabled(q, Submit(f, len))
    ensures Inv(SubmitStep(q, f, len))
  {
    EnqueueKeepsTree(q, f, len);
    EnqueueKeepsFlows(q, f, len);
    var q1 := EnqueueStep(q, f, len);
    hide FlowsOk, TreeOk, Insert;
    if q.sending == null && !q.job {
      ScheduleKeepsInv(q1);
    } else {
      assert SendingOk(q1);
    }
  }

  lemma DoneKeepsInv(q: Queue)
    requires Inv(q) && Enabled(q, Done)
    ensures Inv(DoneStep(q))
  {
    DoneKeepsFlows(q);
    DoneKeepsTree(q);
    hide FlowsOk, TreeOk, Increment;
  }

  lemma DoneKeepsFlows(q: Queue)
    requires Inv(q) && Enabled(q, Done)
    ensures FlowsOk(DoneStep(q)) && DoneStep(q).time.Keys == q.time.Keys
  {
    hide TreeOk, Subtract, Max;
    RebaseIsExact(q);
  }

  lemma DoneKeepsTree(q: Queue)
    requires Inv(q) && Enabled(q, Done)
    ensures TreeOk(DoneStep(q))
  {
    hide FlowsOk, SendingOk, Subtract, Max, Before;
    RebaseIsExact(q);
  }

  lemma LeaveKeepsInv(q: Queue, f: Flow)
    requires Inv(q) && Enabled(q, Leave(f))
    ensures Inv(LeaveStep(q, f))
  {
    var q' := LeaveStep(q, f);
    SortedNoDup(q);
    assert FlowsOk(q');
    assert TreeOk(q') by {
      RemoveSorted(q.time, q.tree, f);
      forall i, j | 0 <= i < j < |q'.tree| ensures Before(q'.time, q'.tree[i], q'.tree[j]) {
        assert Before(q.time, q'.tree[i], q'.tree[j]);
      }
    }
    assert SendingOk(q');
  }

  lemma SortedNoDup(q: Queue)
    requires Inv(q)
    ensures NoDup(q.tree)
  {
    forall i, j | 0 <= i < j < |q.tree| ensures q.tree[i] != q.tree[j] {
      assert Before(q.time, q.tree[i], q.tree[j]);
    }
  }

  /** Whatever callers, output and reactor do, one step keeps the invariant. */
  lemma StepKeepsInv(q: Queue, e: Event)
    requires Inv(q) && Enabled(q, e)
    ensures Inv(Step(q, e))
  {
    match e
    case Join(f) =>
      var q' := JoinStep(q, f);
      assert forall i, j :: 0 <= i < j < |q.tree| ==> Before(q.time, q.tree[i], q.tree[j]) ==> Before(q'.time, q.tree[i], q.tree[j]);
    case Leave(f) => LeaveKeepsInv(q, f);
    case Submit(f, len) => SubmitKeepsInv(q, f, len);
    case Done => DoneKeepsInv(q);
    case RunJob => if q.tree != [] { ScheduleKeepsInv(q.(previous := null, job := false)); }
    case PrepareFree =>
  }

  // ---- runs ----

  /** The events e[0], e[1], ... can happen one after another from q. */
  ghost predicate Run(q: Queue, e: seq<Event>)
    requires Inv(q)
    decreases |e|
  {
    e == [] || (Enabled(q, e[0]) && (StepKeepsInv(q, e[0]); Run(Step(q, e[0]), e[1..])))
  }

  /** The state a run ends in.  Every state of a run is the end of one of its prefixes. */
  ghost function Final(q: Queue, e: seq<Event>): (q': Queue)
    requires Inv(q) && Run(q, e)
    ensures Inv(q') && q'.weight == q.weight && q'.mtu == q.mtu
    decreases |e|
  {
    if e == [] then q else StepKeepsInv(q, e[0]); Final(Step(q, e[0]), e[1..])
  }

  /** The weighted size of a packet of `f` that `e` completes. */
  function Service(q: Queue, e: Event, f: Flow): nat {
    if e.Done? && q.sending == f then q.weight + q.sendingLen else 0
  }

  ghost function TotalService(q: Queue, e: seq<Event>, f: Flow): nat
    requires Inv(q) && Run(q, e)
    decreases |e|
  {
    if e == [] then 0
    else StepKeepsInv(q, e[0]); Service(q, e[0], f) + TotalService(Step(q, e[0]), e[1..], f)
  }

  /** `f` is busy in every state of the run: it resubmits while it is still the previous flow. */
  ghost predicate Backlogged(q: Queue, e: seq<Event>, f: Flow)
    requires Inv(q) && Run(q, e)
    decreases |e|
  {
    f in q.time && Busy(q, f) && (e != [] ==> (StepKeepsInv(q, e[0]); Backlogged(Step(q, e[0]), e[1..], f)))
  }

  function Gap(q: Queue, f: Flow, g: Flow): int
    requires f in q.time && g in q.time
  {
    q.time[f] - q.time[g]
  }

  function Abs(x: int): int { if x < 0 then -x else x }

  lemma BackloggedStep(q: Queue, e: Event, f: Flow, g: Flow)
    requires Inv(q) && Enabled(q, e)
    requires f in q.time && Busy(q, f) && f in Step(q, e).time && Busy(Step(q, e), f)
    requires g in q.time && Busy(q, g) && g in Step(q, e).time && Busy(Step(q, e), g)
    ensures Gap(Step(q, e), f, g) - Gap(q, f, g) == Service(q, e, f) - Service(q, e, g)
    ensures Abs(Gap(Step(q, e), f, g)) <= Max(Abs(Gap(q, f, g)), q.weight + q.mtu)
    ensures Step(q, e).weight == q.weight && Step(q, e).mtu == q.mtu
  {
    hide Inv, Busy;
    if e.Done? {
      DoneGap(q, f, g);
    } else {
      OtherStepTime(q, e, f);
      OtherStepTime(q, e, g);
    }
  }

  lemma DoneGap(q: Queue, f: Flow, g: Flow)
    requires Inv(q) && Enabled(q, Done) && f in q.time && g in q.time && Busy(q, f) && Busy(q, g)
    ensures f in DoneStep(q).time && g in DoneStep(q).time
    ensures Gap(DoneStep(q), f, g) - Gap(q, f, g) == Service(q, Done, f) - Service(q, Done, g)
    ensures Abs(Gap(DoneStep(q), f, g)) <= Max(Abs(Gap(q, f, g)), q.weight + q.mtu)
  {
    hide FlowsOk, TreeOk, Subtract;
    RebaseIsExact(q);
  }

  /** A busy flow that stays busy changes its time only when a packet is done. */
  lemma OtherStepTime(q: Queue, e: Event, f: Flow)
    requires Inv(q) && Enabled(q, e) && !e.Done?
    requires f in q.time && Busy(q, f) && f in Step(q, e).time
    ensures Step(q, e).time[f] == q.time[f]
    ensures Step(q, e).weight == q.weight && Step(q, e).mtu == q.mtu
  {
    hide FlowsOk, TreeOk, Insert, CurrentTime;
  }

  lemma {:induction false} ChargesAreFair(q: Queue, e: seq<Event>, f: Flow, g: Flow)
    requires Inv(q) && Run(q, e) && Backlogged(q, e, f) && Backlogged(q, e, g)
    ensures f in Final(q, e).time && g in Final(q, e).time
    ensures
      var bound := Max(Abs(Gap(q, f, g)), q.weight + q.mtu);
      && Abs(Gap(Final(q, e), f, g)) <= bound
      && TotalService(q, e, f) - TotalService(q, e, g) == Gap(Final(q, e), f, g) - Gap(q, f, g)
      && Abs(TotalService(q, e, f) - TotalService(q, e, g)) <= 2 * bound
    decreases |e|
  {
    hide Inv, Step, Enabled, Busy;
    if e != [] {
      StepKeepsInv(q, e[0]);
      ChargesAreFair(Step(q, e[0]), e[1..], f, g);
      BackloggedStep(q, e[0], f, g);
    }
  }

  // ---- service, from the events alone ----

  /** The length of the packet that `f` submitted last. */
  function LastLen(past: seq<Event>, f: Flow): nat {
    if past == [] then 0
    else
      var e := past[|past| - 1];
      if e.Submit? && e.flow == f then e.len else LastLen(past[..|past| - 1], f)
  }

  lemma LastLenSnoc(past: seq<Event>, e: Event, f: Flow)
    ensures LastLen(past + [e], f) == if e.Submit? && e.flow == f then e.len else LastLen(past, f)
  {
    assert (past + [e])[..|past|] == past;
  }

  /** The lengths the queue holds are those of the packets submitted to it. */
  ghost predicate Remembers(q: Queue, past: seq<Event>) {
    && (forall f :: f in q.queued ==> q.queued[f] == LastLen(past, f))
    && (q.sending != null ==> q.sendingLen == LastLen(past, q.sending))
  }

  lemma StepRemembers(q: Queue, past: seq<Event>, e: Event)
    requires Inv(q) && Enabled(q, e) && Remembers(q, past)
    ensures Remembers(Step(q, e), past + [e])
  {
    hide FlowsOk, Insert, CurrentTime, LastLen, Increment;
    forall f ensures LastLen(past + [e], f) == if e.Submit? && e.flow == f then e.len else LastLen(past, f) {
      LastLenSnoc(past, e, f);
    }
  }

  /** Nothing is queued or being sent. */
  ghost predicate Idle(q: Queue) {
    q.queued == map[] && q.sending == null
  }

  lemma {:induction false} RunRemembers(q: Queue, past: seq<Event>, e: seq<Event>)
    requires Inv(q) && Run(q, e) && Remembers(q, past)
    ensures Remembers(Final(q, e), past + e)
    decreases |e|
  {
    hide Inv, Step, Enabled, Remembers;
    if e == [] {
      assert past + e == past;
    } else {
      StepKeepsInv(q, e[0]);
      StepRemembers(q, past, e[0]);
      RunRemembers(Step(q, e[0]), past + [e[0]], e[1..]);
      assert past + [e[0]] + e[1..] == past + e;
    }
  }

  /** Whatever has happened since the queue was idle, it remembers. */
  lemma RemembersSinceIdle(q: Queue, e: seq<Event>)
    requires Inv(q) && Idle(q) && Run(q, e)
    ensures Remembers(Final(q, e), e)
  {
    RunRemembers(q, [], e);
    assert [] + e == e;
  }

  /**
   * What `f` has received over the run `e`, which follows the events `past`:
   * for each packet completed while it was the one being sent, the weight and
   * the length with which it was submitted.
   */
  ghost function Received(q: Queue, past: seq<Event>, e: seq<Event>, f: Flow): nat
    requires Inv(q) && Run(q, e)
    decreases |e|
  {
    if e == [] then 0
    else
      StepKeepsInv(q, e[0]);
      (if e[0].Done? && q.sending == f then q.weight + LastLen(past, f) else 0)
      + Received(Step(q, e[0]), past + [e[0]], e[1..], f)
  }

  /** A flow is charged for exactly what it submitted. */
  lemma {:induction false} ChargedAsSubmitted(q: Queue, past: seq<Event>, e: seq<Event>, f: Flow)
    requires Inv(q) && Run(q, e) && Remembers(q, past)
    ensures TotalService(q, e, f) == Received(q, past, e, f)
    decreases |e|
  {
    hide Inv, Step, Enabled, LastLen;
    if e != [] {
      StepKeepsInv(q, e[0]);
      StepRemembers(q, past, e[0]);
      ChargedAsSubmitted(Step(q, e[0]), past + [e[0]], e[1..], f);
    }
  }

  /**
   * Fairness: while two flows stay backlogged, their times never drift further
   * apart than one packet or the gap they started with, and the packets each
   * has got through, by weight and submitted length, differ by exactly the
   * change of that gap.
   */
  lemma Fairness(q: Queue, past: seq<Event>, e: seq<Event>, f: Flow, g: Flow)
    requires Inv(q) && Remembers(q, past)
    requires Run(q, e) && Backlogged(q, e, f) && Backlogged(q, e, g)
    ensures f in Final(q, e).time && g in Final(q, e).time
    ensures
      var bound := Max(Abs(Gap(q, f, g)), q.weight + q.mtu);
      && Abs(Gap(Final(q, e), f, g)) <= bound
      && Received(q, past, e, f) - Received(q, past, e, g) == Gap(Final(q, e), f, g) - Gap(q, f, g)
      && Abs(Received(q, past, e, f) - Received(q, past, e, g)) <= 2 * bound
  {
    hide *;
    ChargesAreFair(q, e, f, g);
    ChargedAsSubmitted(q, past, e, f);
    ChargedAsSubmitted(q, past, e, g);
  }

  // ---- who stays backlogged, and where a flow starts ----

  /** A busy flow stops being busy only by leaving, or when the job runs before it has submitted again. */
  lemma BusyUntilJob(q: Queue, e: Event, f: Flow)
    requires Inv(q) && Enabled(q, e) && f in q.time && Busy(q, f)
    ensures !Busy(Step(q, e), f) <==> e == Leave(f) || (e == RunJob && f !in q.queued && f != q.sending)
  {
    hide FlowsOk, Insert, CurrentTime, Increment;
    assert q.tree != [] ==> q.tree[0] in q.tree;
  }

  /** A flow that submits is raised to the least time of a busy flow, if it was behind, and to no more. */
  lemma StartsLevel(q: Queue, f: Flow, len: nat)
    requires Inv(q) && Enabled(q, Submit(f, len))
    ensures
      var t, t' := q.time[f], Step(q, Submit(f, len)).time[f];
      || (t' == t && (Busy(q, f) || (exists g :: g in q.time && Busy(q, g) && q.time[g] <= t) || forall g :: g in q.time ==> !Busy(q, g)))
      || (t' > t && !Busy(q, f) && (exists g :: g in q.time && Busy(q, g) && t' == q.time[g])
          && forall g :: g in q.time && Busy(q, g) ==> t' <= q.time[g])
    ensures forall g :: g in q.time && g != f ==> Step(q, Submit(f, len)).time[g] == q.time[g]
  {
    CurrentTimeIsLeastBusy(q);
    hide FlowsOk, TreeOk, Insert, CurrentTime;
  }

  /** A new flow has no credit: it starts with the least time of any busy flow. */
  lemma NewStartsLevel(q: Queue, f: Flow, len: nat)
    requires Inv(q) && Enabled(q, Join(f)) && len <= q.mtu
    ensures Inv(Step(q, Join(f))) && Enabled(Step(q, Join(f)), Submit(f, len))
    ensures
      var t := Step(Step(q, Join(f)), Submit(f, len)).time[f];
      && (forall g :: g in q.time && Busy(q, g) ==> t <= q.time[g])
      && (t == 0 || exists g :: g in q.time && Busy(q, g) && t == q.time[g])
  {
    StepKeepsInv(q, Join(f));
    var q1 := Step(q, Join(f));
    assert forall g :: g in q.time ==> q1.time[g] == q.time[g] && (Busy(q1, g) <==> Busy(q, g));
    assert q1.time[f] == 0 && !Busy(q1, f);
    StartsLevel(q1, f, len);
    hide FlowsOk, TreeOk, Insert, CurrentTime, Step;
  }

  /** A rebase goes as far as it can: the first queued flow ends at 0, and if there is none the finished flow starts over. */
  lemma RebaseIsFull(q: Queue)
    requires Inv(q) && Enabled(q, Done) && q.time[q.sending] + q.weight + q.sendingLen > MAX_TIME
    ensures
      var time := DoneStep(q).time;
      if q.tree == [] then time[q.sending] == q.weight + q.sendingLen else time[q.tree[0]] == 0
  {
    FirstIsLeast(q);
    RebaseIsExact(q);
  }

  /** Once the queue is to be freed its flows can leave in any order, also the one being sent, and nothing else happens. */
  lemma FreeableWhenPrepared(q: Queue, e: Event)
    requires Inv(q)
    ensures Enabled(Step(q, PrepareFree), e) <==> e.PrepareFree? || (e.Leave? && e.flow in q.time)
  {
  }

  /** By how much `g` is ahead of `h`. */
  function Lead(time: map<Flow, int>, g: Flow, h: Flow): int
    requires g in time && h in time
  {
    Max(time[g], time[h]) - time[h]
  }

  /** A rebase changes no flow's lead over a queued one, idle flows included, except that of the finished flow. */
  lemma RebaseKeepsLead(q: Queue, g: Flow, h: Flow)
    requires Inv(q) && Enabled(q, Done) && g in q.time && g != q.sending && h in q.queued
    ensures g in DoneStep(q).time && h in DoneStep(q).time
    ensures Lead(DoneStep(q).time, g, h) == Lead(q.time, g, h)
  {
    hide FlowsOk, Subtract;
    RebaseIsExact(q);
  }

  // ---- no starvation ----

  /** How far the flows in `flows` other than `f` may still go before passing `f`. */
  function Lag(flows: seq<Flow>, time: map<Flow, int>, f: Flow): nat
    requires f in time && forall g :: g in flows ==> g in time
  {
    if flows == [] then 0
    else
      (if flows[0] == f then 0 else Max(0, time[f] - time[flows[0]] + 1)) + Lag(flows[1..], time, f)
  }

  lemma {:induction false} LagMonotone(flows: seq<Flow>, time: map<Flow, int>, time': map<Flow, int>, f: Flow)
    requires f in time && forall g :: g in flows ==> g in time
    requires f in time' && forall g :: g in flows ==> g in time'
    requires forall g :: g in flows ==> time'[f] - time'[g] <= time[f] - time[g]
    ensures Lag(flows, time', f) <= Lag(flows, time, f)
  {
    if flows != [] {
      LagMonotone(flows[1..], time, time', f);
    }
  }

  lemma {:induction false} LagStrict(flows: seq<Flow>, time: map<Flow, int>, time': map<Flow, int>, f: Flow, h: Flow)
    requires f in time && forall g :: g in flows ==> g in time
    requires f in time' && forall g :: g in flows ==> g in time'
    requires forall g :: g in flows ==> time'[f] - time'[g] <= time[f] - time[g]
    requires h in flows && h != f && time[h] <= time[f] && time'[f] - time'[h] < time[f] - time[h]
    ensures Lag(flows, time', f) < Lag(flows, time, f)
  {
    if flows[0] == h {
      LagMonotone(flows[1..], time, time', f);
    } else {
      assert h in flows[1..];
      LagStrict(flows[1..], time, time', f, h);
    }
  }

  lemma {:induction false} LagRemove(flows: seq<Flow>, time: map<Flow, int>, f: Flow, h: Flow)
    requires f in time && (forall g :: g in flows ==> g in time) && h != f && NoDup(flows)
    ensures Lag(Remove(flows, h), time - {h}, f) <= Lag(flows, time, f)
  {
    if flows != [] {
      if flows[0] == h {
        LagMonotone(flows[1..], time, time - {h}, f);
      } else {
        LagRemove(flows[1..], time, f, h);
      }
    }
  }

  lemma DoneLowersLag(q: Queue, f: Flow)
    requires Inv(q) && Enabled(q, Done) && f in q.queued
    ensures Lag(q.flows, DoneStep(q).time, f) < Lag(q.flows, q.time, f)
  {
    RebaseIsExact(q);
    var time := DoneStep(q).time;
    forall g | g in q.flows ensures g in time && time[f] - time[g] <= q.time[f] - q.time[g] {}
    assert q.sending in q.flows && q.time[q.sending] <= q.time[f];
    assert time[f] - time[q.sending] < q.time[f] - q.time[q.sending];
    hide *;
    LagStrict(q.flows, q.time, time, f, q.sending);
  }

  lemma SubmitKeepsLag(q: Queue, f: Flow, h: Flow, len: nat)
    requires Inv(q) && Enabled(q, Submit(h, len)) && f in q.queued
    ensures Lag(q.flows, SubmitStep(q, h, len).time, f) <= Lag(q.flows, q.time, f)
  {
    LagMonotone(q.flows, q.time, SubmitStep(q, h, len).time, f);
  }

  /** While `f` waits, no step other than a join raises its lag, and every completed send lowers it. */
  lemma WaitingStep(q: Queue, e: Event, f: Flow)
    requires Inv(q) && Enabled(q, e) && !e.Join?
    requires f in q.queued && f in Step(q, e).queued
    ensures f in Step(q, e).time && forall g :: g in Step(q, e).flows ==> g in Step(q, e).time
    ensures Lag(Step(q, e).flows, Step(q, e).time, f) + (if e.Done? then 1 else 0) <= Lag(q.flows, q.time, f)
  {
    StepKeepsInv(q, e);
    match e
    case Leave(h) =>
      SortedNoDup(q);
      LagRemove(q.flows, q.time, f, h);
    case Submit(h, len) => SubmitKeepsLag(q, f, h, len);
    case Done => DoneLowersLag(q, f);
    case RunJob =>
    case PrepareFree =>
  }

  function Sends(e: seq<Event>): nat {
    if e == [] then 0 else (if e[0].Done? then 1 else 0) + Sends(e[1..])
  }

  /** `f` is still queued in every state of the run, and no flow joins during it. */
  ghost predicate Waiting(q: Queue, e: seq<Event>, f: Flow)
    requires Inv(q) && Run(q, e)
    decreases |e|
  {
    f in q.queued && (e != [] ==> !e[0].Join? && (StepKeepsInv(q, e[0]); Waiting(Step(q, e[0]), e[1..], f)))
  }

  /**
   * No starvation: as long as no new flow joins, at most Lag completed sends
   * can happen before a waiting flow gets its turn, although the others may go
   * idle, come back, leave, or trigger a rebase.
   */
  lemma {:induction false} NoStarvation(q: Queue, e: seq<Event>, f: Flow)
    requires Inv(q) && Run(q, e) && Waiting(q, e, f)
    ensures f in Final(q, e).queued
    ensures Lag(Final(q, e).flows, Final(q, e).time, f) + Sends(e) <= Lag(q.flows, q.time, f)
    decreases |e|
  {
    if e != [] {
      StepKeepsInv(q, e[0]);
      NoStarvation(Step(q, e[0]), e[1..], f);
      WaitingStep(q, e[0], f);
    }
  }

  /** A queue with a waiting flow is never stuck: it is sending, or its job will start a send. */
  lemma NeverStuck(q: Queue)
    requires Inv(q) && !q.freeing && q.tree != []
    ensures Enabled(q, Done) || (Enabled(q, RunJob) && Enabled(Step(q, RunJob), Done) && Step(q, RunJob).sending == q.tree[0])
  {
  }
}
