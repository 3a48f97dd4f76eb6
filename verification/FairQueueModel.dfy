/**
 * Virtual-time model of the packet fair queue: the state a queue holds between
 * two handlers, and one function per handler.  Times here are exact integers;
 * the 64-bit code is `FairQueue.dfy`, which is proved to agree with this model.
 */
module FairQueueModel {
  import opened Lists

  /** FAIRQUEUE_MAX_TIME, the largest uint64_t. */
  const MAX_TIME: nat := 0xFFFF_FFFF_FFFF_FFFF

  type Time = t: nat | t <= MAX_TIME

  /** A queue flow.  `addr` is its address, which breaks ties between equal times. */
  class Flow {
    const addr: nat
    var time: Time
    var isQueued: bool
    var dataLen: nat

    constructor (addr: nat)
      ensures this.addr == addr && time == 0 && !isQueued
    {
      this.addr := addr;
      time, isQueued, dataLen := 0, false, 0;
    }
  }

  datatype Queue = Queue(
    weight: nat,
    mtu: nat,
    flows: seq<Flow>,
    time: map<Flow, int>,
    queued: map<Flow, nat>, // the queued flows, with the length of their packets
    tree: seq<Flow>,        // the same flows, in tree order
    sending: Flow?,
    sendingLen: nat,
    previous: Flow?,
    job: bool,              // the schedule job is pending
    freeing: bool)

  datatype Event =
    | Join(flow: Flow)
    | Leave(flow: Flow)
    | Submit(flow: Flow, len: nat)
    | Done
    | RunJob
    | PrepareFree

  // ---- the queued tree ----

  /** compare_flows: by time, then by address. */
  predicate Before(time: map<Flow, int>, a: Flow, b: Flow)
    requires a in time && b in time
  {
    time[a] < time[b] || (time[a] == time[b] && a.addr < b.addr)
  }

  ghost predicate Covered(time: map<Flow, int>, tree: seq<Flow>) {
    forall f :: f in tree ==> f in time
  }

  ghost predicate Sorted(time: map<Flow, int>, tree: seq<Flow>)
    requires Covered(time, tree)
  {
    forall i, j :: 0 <= i < j < |tree| ==> Before(time, tree[i], tree[j])
  }

  /** Position of a flow in a sorted tree: after every flow that comes before it. */
  function Insert(time: map<Flow, int>, tree: seq<Flow>, f: Flow): (r: seq<Flow>)
    requires Covered(time, tree) && f in time
    ensures |r| == |tree| + 1
    ensures f in r && (forall g :: g in tree ==> g in r) && (forall g :: g in r ==> g == f || g in tree)
  {
    if tree == [] || !Before(time, tree[0], f) then [f] + tree
    else [tree[0]] + Insert(time, tree[1..], f)
  }

  lemma {:induction false} InsertSorted(time: map<Flow, int>, tree: seq<Flow>, f: Flow)
    requires Covered(time, tree) && f in time && Sorted(time, tree)
    requires forall g :: g in tree ==> g.addr != f.addr
    ensures Sorted(time, Insert(time, tree, f))
  {
    if tree != [] && Before(time, tree[0], f) {
      InsertSorted(time, tree[1..], f);
      var t := Insert(time, tree[1..], f);
      forall k | 0 <= k < |t| ensures Before(time, tree[0], t[k]) {
        if t[k] != f {
          assert t[k] in tree[1..];
        }
      }
    }
  }

  lemma {:induction false} RemoveSorted(time: map<Flow, int>, tree: seq<Flow>, f: Flow)
    requires Covered(time, tree) && Sorted(time, tree)
    ensures Covered(time, Remove(tree, f)) && Sorted(time, Remove(tree, f))
  {
    if tree != [] && tree[0] != f {
      RemoveSorted(time, tree[1..], f);
      var t := Remove(tree[1..], f);
      forall k | 0 <= k < |t| ensures Before(time, tree[0], t[k]) {
        assert t[k] in tree[1..];
      }
    }
  }

  // ---- handlers ----

  predicate Busy(q: Queue, f: Flow) {
    f in q.queued || f == q.sending || f == q.previous
  }

  /** get_current_time */
  function CurrentTime(q: Queue): int
    requires Covered(q.time, q.tree)
    requires q.sending != null ==> q.sending in q.time
    requires q.previous != null ==> q.previous in q.time
  {
    if q.sending != null then q.time[q.sending]
    else if q.tree != [] then
      if q.previous != null && q.time[q.previous] < q.time[q.tree[0]] then q.time[q.previous] else q.time[q.tree[0]]
    else if q.previous != null then q.time[q.previous]
    else 0
  }

  function Max(a: int, b: int): int { if a < b then b else a }

  /** The amount taken from all times when the finished flow's time would pass MAX_TIME. */
  function Subtract(q: Queue, f: Flow, amount: nat): int
    requires f in q.time && Covered(q.time, q.tree)
  {
    if q.time[f] + amount <= MAX_TIME then 0
    else if q.tree == [] then q.time[f]
    else q.time[q.tree[0]]
  }

  /** increment_sent_flow, in exact integers */
  function Increment(q: Queue, f: Flow, amount: nat): (time: map<Flow, int>)
    requires f in q.time && Covered(q.time, q.tree)
  {
    var sub := Subtract(q, f, amount);
    map g | g in q.time :: if g == f then q.time[f] + amount - sub else Max(0, q.time[g] - sub)
  }

  function Schedule(q: Queue): Queue
    requires q.tree != [] && q.tree[0] in q.queued
  {
    q.(tree := q.tree[1..], queued := q.queued - {q.tree[0]}, sending := q.tree[0], sendingLen := q.queued[q.tree[0]])
  }

  function JoinStep(q: Queue, f: Flow): Queue {
    q.(flows := q.flows + [f], time := q.time[f := 0])
  }

  function LeaveStep(q: Queue, f: Flow): Queue {
    q.(flows := Remove(q.flows, f), time := q.time - {f}, tree := Remove(q.tree, f), queued := q.queued - {f},
       sending := if q.sending == f then null else q.sending,
       previous := if q.previous == f then null else q.previous)
  }

  /** The first half of input_handler_send: raise the flow's time and put it in the tree. */
  function EnqueueStep(q: Queue, f: Flow, len: nat): Queue
    requires Inv(q) && f in q.time
  {
    var t := if f == q.previous then q.time[f] else Max(q.time[f], CurrentTime(q));
    var time := q.time[f := t];
    q.(previous := if f == q.previous then null else q.previous,
       time := time, tree := Insert(time, q.tree, f), queued := q.queued[f := len])
  }

  function SubmitStep(q: Queue, f: Flow, len: nat): Queue
    requires Inv(q) && f in q.time
  {
    var q1 := EnqueueStep(q, f, len);
    assert q1.tree[0] in q1.tree;
    if q.sending == null && !q.job then Schedule(q1) else q1
  }

  function RunJobStep(q: Queue): Queue
    requires Inv(q)
  {
    var q1 := q.(previous := null, job := false);
    if q.tree != [] then Schedule(q1) else q1
  }

  function DoneStep(q: Queue): Queue
    requires Inv(q) && q.sending != null
  {
    q.(sending := null, previous := q.sending, job := true, time := Increment(q, q.sending, q.weight + q.sendingLen))
  }

  /** What the queue's callers, the output and the reactor may do next. */
  ghost predicate Enabled(q: Queue, e: Event) {
    match e
    case Join(f) => !q.freeing && f !in q.time && forall g :: g in q.time ==> g.addr != f.addr
    case Leave(f) => f in q.time && (q.freeing || f != q.sending)
    case Submit(f, len) => !q.freeing && f in q.time && f != q.sending && f !in q.queued && len <= q.mtu
    case Done => !q.freeing && q.sending != null
    case RunJob => !q.freeing && q.job
    case PrepareFree => true
  }

  function Step(q: Queue, e: Event): Queue
    requires Inv(q) && Enabled(q, e)
  {
    match e
    case Join(f) => JoinStep(q, f)
    case Leave(f) => LeaveStep(q, f)
    case Submit(f, len) => SubmitStep(q, f, len)
    case Done => DoneStep(q)
    case RunJob => RunJobStep(q)
    case PrepareFree => q.(freeing := true)
  }

  // ---- the invariant ----

  ghost predicate TreeOk(q: Queue) {
    && Covered(q.time, q.tree)
    && Sorted(q.time, q.tree)
    && (forall f :: f in q.queued ==> f in q.tree) && (forall f :: f in q.tree ==> f in q.queued)
    && (forall f :: f in q.queued ==> q.queued[f] <= q.mtu)
  }

  ghost predicate FlowsOk(q: Queue) {
    && NoDup(q.flows)
    && (forall f :: f in q.flows ==> f in q.time) && (forall f :: f in q.time ==> f in q.flows)
    && (forall f :: f in q.time ==> 0 <= q.time[f] <= MAX_TIME)
    && (forall f, g :: f in q.time && g in q.time && f.addr == g.addr ==> f == g)
  }

  /** The flow being sent is never ahead of a queued one. */
  ghost predicate SendingOk(q: Queue) {
    && (q.sending != null ==>
          && q.sending in q.time && q.sending !in q.queued && q.sendingLen <= q.mtu
          && q.previous == null && !q.job
          && (forall g :: g in q.queued && g in q.time ==> q.time[q.sending] <= q.time[g]))
    && (q.previous != null ==> q.previous in q.time && q.previous !in q.queued && q.job)
    && (!q.freeing && q.tree != [] ==> q.sending != null || q.job)
  }

  ghost predicate Inv(q: Queue) {
    && 0 < q.weight && q.weight + q.mtu <= MAX_TIME
    && FlowsOk(q) && TreeOk(q) && SendingOk(q)
  }
}
