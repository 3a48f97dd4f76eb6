/**
 * The DHCP client core: five states, five timers, and the messages of section
 * 4.4 of RFC 2131.  Times are in milliseconds.
 */
module DhcpModel {
  import opened Bytes

  const RESET_TIMEOUT: nat := 4000
  const REQUEST_TIMEOUT: nat := 3000
  const RENEW_REQUEST_TIMEOUT: nat := 20000
  const MAX_REQUESTS: nat := 4
  const XID_REUSE_MAX: nat := 8

  function RenewTimeout(lease: nat): nat { 500 * lease }
  function LeaseTimeout(lease: nat): nat { 1000 * lease - RenewTimeout(lease) }

  datatype Mode = Resetting | SentDiscover | SentRequest | Finished | Renewing
  datatype Timer = Reset | Request | Renew | RenewRequest | Lease

  /** What an ACK grants beside the address. */
  datatype Grant = Grant(lease: nat, mask: nat, router: Option<nat>, dns: seq<nat>)

  /**
   * `timers` gives the time each running timer is due.
   */
  datatype Client = Client(mode: Mode, timers: map<Timer, nat>, requestCount: nat,
                           xid: nat, reuse: nat,
                           yiaddr: nat, server: nat, acked: Grant, sending: bool)

  datatype Kind = Offer | Ack | Nak | Other

  /** A reply whose header fields other than the transaction id are in order, and whose options parse. */
  datatype Reply = Reply(kind: Kind, xid: nat, yiaddr: nat, server: Option<nat>, lease: Option<nat>,
                         mask: Option<nat>, router: Option<nat>, dns: seq<nat>)

  /**
   * What the client does to the outside: discovers and requests, which are not
   * sent when a send is pending, and reports.
   */
  datatype Out =
    | Discover(xid: nat, sent: bool)
    | AskFor(yiaddr: nat, server: Option<nat>, xid: nat, sent: bool)
    | Up
    | Down

  datatype Event =
    | Expire(t: Timer, now: nat, random: nat)
    | Receive(r: Reply, now: nat)
    | SendDone(now: nat)

  datatype Result = Result(client: Client, out: seq<Out>)

  function Start(c: Client, t: Timer, now: nat, delay: nat): Client {
    c.(timers := c.timers[t := now + delay])
  }

  function Stop(c: Client, t: Timer): Client {
    c.(timers := c.timers - {t})
  }

  /** start_process */
  function StartProcess(c: Client, force: bool, now: nat, random: nat): Result {
    var c1 := if force || c.reuse == XID_REUSE_MAX
              then c.(xid := random, reuse := 0) else c;
    var c2 := c1.(reuse := c1.reuse + 1, sending := true);
    Result(Start(c2, Reset, now, RESET_TIMEOUT).(mode := SentDiscover), [Discover(c2.xid, !c.sending)])
  }

  /** The five timer handlers; the timer that expired runs no more. */
  function OnTimer(c0: Client, t: Timer, now: nat, random: nat): Result {
    var c := Stop(c0, t);
    match t
    case Reset => StartProcess(c, c.mode == Resetting, now, random)
    case Request =>
      if c.requestCount == MAX_REQUESTS then StartProcess(c, false, now, random)
      else
        Result(Start(c, Request, now, REQUEST_TIMEOUT).(requestCount := c.requestCount + 1, sending := true),
               [AskFor(c.yiaddr, Some(c.server), c.xid, !c.sending)])
    case Renew =>
      var c1 := Start(c, RenewRequest, now, RENEW_REQUEST_TIMEOUT);
      Result(Start(c1, Lease, now, LeaseTimeout(c.acked.lease)).(mode := Renewing, sending := true),
             [AskFor(c.yiaddr, None, c.xid, !c.sending)])
    case RenewRequest =>
      Result(Start(c, RenewRequest, now, RENEW_REQUEST_TIMEOUT).(sending := true), [AskFor(c.yiaddr, None, c.xid, !c.sending)])
    case Lease =>
      var r := StartProcess(Stop(c, RenewRequest), true, now, random);
      Result(r.client, r.out + [Down])
  }

  function GoResetting(c: Client, now: nat): Client {
    Start(c, Reset, now, RESET_TIMEOUT).(mode := Resetting)
  }

  function OnNak(c: Client, now: nat): Result {
    match c.mode
    case SentRequest => Result(GoResetting(Stop(c, Request), now), [])
    case Finished => Result(GoResetting(Stop(c, Renew), now), [Down])
    case Renewing => Result(GoResetting(Stop(Stop(c, RenewRequest), Lease), now), [Down])
    case _ => Result(c, [])
  }

  /** recv_handler_done, once the message has parsed */
  function OnReply(c: Client, r: Reply, now: nat): Result {
    if c.mode == Resetting || r.xid != c.xid || r.kind == Other || r.server == None then Result(c, [])
    else if r.kind == Nak then
      if r.server == Some(c.server) then OnNak(c, now) else Result(c, [])
    else if r.yiaddr == 0 || r.lease == None || r.mask == None then Result(c, [])
    else if c.mode == SentDiscover && r.kind == Offer then
      var c1 := Start(Stop(c, Reset), Request, now, REQUEST_TIMEOUT);
      Result(c1.(mode := SentRequest, requestCount := 1, yiaddr := r.yiaddr, server := r.server.value, sending := true),
             [AskFor(r.yiaddr, r.server, c.xid, !c.sending)])
    else if r.kind != Ack || r.yiaddr != c.yiaddr || r.server != Some(c.server) then Result(c, [])
    else if c.mode == SentRequest then
      var c1 := Start(Stop(c, Request), Renew, now, RenewTimeout(r.lease.value));
      Result(c1.(mode := Finished, acked := Grant(r.lease.value, r.mask.value, r.router, r.dns)), [Up])
    else if c.mode == Renewing then
      var c1 := Start(Stop(Stop(c, RenewRequest), Lease), Renew, now, RenewTimeout(r.lease.value));
      Result(c1.(mode := Finished, acked := c.acked.(lease := r.lease.value)), [])
    else Result(c, [])
  }

  function Step(c: Client, e: Event): Result {
    match e
    case Expire(t, now, random) => OnTimer(c, t, now, random)
    case Receive(r, now) => OnReply(c, r, now)
    case SendDone(_) => Result(c.(sending := false), [])
  }

  /** A timer goes off when it runs and is due; a send can complete when one is pending. */
  predicate Enabled(c: Client, e: Event) {
    match e
    case Expire(t, now, _) => t in c.timers && now >= c.timers[t]
    case Receive(_, _) => true
    case SendDone(_) => c.sending
  }

  // ---- what every run keeps ----

  function Running(m: Mode): set<Timer> {
    match m
    case Resetting => {Reset}
    case SentDiscover => {Reset}
    case SentRequest => {Request}
    case Finished => {Renew}
    case Renewing => {RenewRequest, Lease}
  }

  predicate IsUp(m: Mode) { m == Finished || m == Renewing }

  ghost predicate Inv(c: Client) {
    && c.timers.Keys == Running(c.mode)
    && 1 <= c.reuse <= XID_REUSE_MAX
    && (c.mode == SentRequest ==> 1 <= c.requestCount <= MAX_REQUESTS)
  }

  /** BDHCPClientCore_Init */
  function Init(now: nat, random: nat): Result {
    StartProcess(Client(Resetting, map[], 0, 0, 0, 0, 0, Grant(0, 0, None, []), false), true, now, random)
  }

  /** The running timers are a function of the state, and the counters stay in their bounds. */
  lemma StepKeepsInv(c: Client, e: Event)
    requires Inv(c) && Enabled(c, e)
    ensures Inv(Step(c, e).client)
  {
    var c' := Step(c, e).client;
    assert c'.timers.Keys == Running(c'.mode);
  }

  /** What a timer handler asserts of the state follows from the timer running. */
  lemma HandlerAsserts(c: Client, e: Event)
    requires Inv(c) && Enabled(c, e) && e.Expire?
    ensures match e.t
            case Reset => c.mode == Resetting || c.mode == SentDiscover
            case Request => c.mode == SentRequest && 1 <= c.requestCount <= MAX_REQUESTS
            case Renew => c.mode == Finished
            case RenewRequest => c.mode == Renewing
            case Lease => c.mode == Renewing
  {
  }

  /** The reply carries what an offer or an ACK must carry. */
  predicate Complete(r: Reply) {
    r.yiaddr != 0 && r.server.Some? && r.lease.Some? && r.mask.Some?
  }

  /** The reply comes from the server of the offer, for the address of the offer. */
  predicate FromOffer(c: Client, r: Reply) {
    r.yiaddr == c.yiaddr && r.server == Some(c.server)
  }

  /**
   * Which replies are heeded: those for the current transaction that are an
   * offer while one is awaited, an ACK of the offer by its server while one is
   * awaited, or a NAK by that server after it was asked.
   */
  lemma RepliesHeeded(c: Client, r: Reply, now: nat)
    ensures
      OnReply(c, r, now).client != c <==>
      && r.xid == c.xid
      && match r.kind
         case Offer => c.mode == SentDiscover && Complete(r)
         case Ack => c.mode in {SentRequest, Renewing} && Complete(r) && FromOffer(c, r)
         case Nak => c.mode in {SentRequest, Finished, Renewing} && r.server == Some(c.server)
         case Other => false
    ensures OnReply(c, r, now).client == c ==> OnReply(c, r, now).out == []
  {
  }

  /** What a heeded reply leads to: a request for what was offered, the grant of the ACK, or a fresh start. */
  lemma RepliesMean(c: Client, r: Reply, now: nat)
    requires OnReply(c, r, now).client != c
    ensures
      var Result(c', out) := OnReply(c, r, now);
      && c'.xid == c.xid && c'.reuse == c.reuse
      && (r.kind == Offer ==>
            c'.mode == SentRequest && FromOffer(c', r) && out == [AskFor(r.yiaddr, r.server, c.xid, !c.sending)])
      && (r.kind == Ack ==>
            c'.mode == Finished && c'.acked.lease == r.lease.value && FromOffer(c', r)
            && (c.mode == SentRequest ==> c'.acked == Grant(r.lease.value, r.mask.value, r.router, r.dns))
            && (c.mode == Renewing ==> c'.acked == c.acked.(lease := r.lease.value))
            && (out == [Up] <==> c.mode == SentRequest) && (out == [] <==> c.mode == Renewing))
      && (r.kind == Nak ==> c'.mode == Resetting && (out == [Down] <==> IsUp(c.mode)) && (out == [] <==> !IsUp(c.mode)))
  {
  }

  ghost predicate Run(c: Client, es: seq<Event>)
    decreases |es|
  {
    es == [] || (Enabled(c, es[0]) && Run(Step(c, es[0]).client, es[1..]))
  }

  function Final(c: Client, es: seq<Event>): Client
    decreases |es|
  {
    if es == [] then c else Final(Step(c, es[0]).client, es[1..])
  }

  function Trace(c: Client, es: seq<Event>): seq<Out>
    decreases |es|
  {
    if es == [] then [] else Step(c, es[0]).out + Trace(Step(c, es[0]).client, es[1..])
  }

  lemma {:induction false} RunKeepsInv(c: Client, es: seq<Event>)
    requires Inv(c) && Run(c, es)
    ensures Inv(Final(c, es))
    decreases |es|
  {
    if es != [] {
      StepKeepsInv(c, es[0]);
      RunKeepsInv(Step(c, es[0]).client, es[1..]);
    }
  }

  // ---- reports ----

  /** The reports in `out` strictly alternate when the last one before it was Up iff `up`. */
  predicate Alternate(out: seq<Out>, up: bool) {
    out == [] ||
    match out[0]
    case Up => !up && Alternate(out[1..], true)
    case Down => up && Alternate(out[1..], false)
    case _ => Alternate(out[1..], up)
  }

  function LastUp(out: seq<Out>, up: bool): bool {
    if out == [] then up else LastUp(out[1..], if out[0].Up? then true else if out[0].Down? then false else up)
  }

  lemma {:induction false} AlternateAppend(a: seq<Out>, b: seq<Out>, up: bool)
    requires Alternate(a, up) && Alternate(b, LastUp(a, up))
    ensures Alternate(a + b, up) && LastUp(a + b, up) == LastUp(b, LastUp(a, up))
    decreases |a|
  {
    if a == [] {
      assert a + b == b;
    } else {
      assert (a + b)[1..] == a[1..] + b;
      AlternateAppend(a[1..], b, if a[0].Up? then true else if a[0].Down? then false else up);
    }
  }

  lemma StepReports(c: Client, e: Event)
    requires Inv(c) && Enabled(c, e)
    ensures Alternate(Step(c, e).out, IsUp(c.mode))
    ensures LastUp(Step(c, e).out, IsUp(c.mode)) == IsUp(Step(c, e).client.mode)
  {
    var out := Step(c, e).out;
    if |out| == 2 {
      assert out[1..] == [Down] && out[0].Discover?;
      assert LastUp([Down], true) == LastUp([Down][1..], false);
    }
  }

  /** In every run UP and DOWN strictly alternate, and the client is up exactly after an UP. */
  lemma {:induction false} ReportsAlternate(c: Client, es: seq<Event>)
    requires Inv(c) && Run(c, es)
    ensures Alternate(Trace(c, es), IsUp(c.mode))
    ensures LastUp(Trace(c, es), IsUp(c.mode)) == IsUp(Final(c, es).mode)
    decreases |es|
  {
    if es != [] {
      var r := Step(c, es[0]);
      StepKeepsInv(c, es[0]);
      StepReports(c, es[0]);
      ReportsAlternate(r.client, es[1..]);
      AlternateAppend(r.out, Trace(r.client, es[1..]), IsUp(c.mode));
    }
  }

  // ---- the lease ----

  /** When the lease ends if no timer is late and no further ACK or NAK comes. */
  function Due(c: Client): nat
    requires Inv(c) && IsUp(c.mode)
  {
    if c.mode == Finished then c.timers[Renew] + LeaseTimeout(c.acked.lease) else c.timers[Lease]
  }

  /** How late the renew and lease timers of a run were served. */
  function Lateness(c: Client, es: seq<Event>): nat
    requires Run(c, es)
    decreases |es|
  {
    if es == [] then 0
    else
      (if es[0].Expire? && es[0].t in {Renew, Lease} then es[0].now - c.timers[es[0].t] else 0)
      + Lateness(Step(c, es[0]).client, es[1..])
  }

  predicate Quiet(e: Event) {
    e.Receive? ==> e.r.kind != Ack && e.r.kind != Nak
  }

  /** An accepted ACK puts the end of the lease 1000 ms per second of lease time ahead. */
  lemma AckSetsDue(c: Client, r: Reply, now: nat)
    requires Inv(c) && r.kind == Ack && r.lease.Some?
    requires OnReply(c, r, now).client != c
    ensures
      var c' := OnReply(c, r, now).client;
      Inv(c') && c'.mode == Finished && Due(c') == now + 1000 * r.lease.value
  {
    StepKeepsInv(c, Receive(r, now));
  }

  lemma QuietStep(c: Client, e: Event)
    requires Inv(c) && IsUp(c.mode) && Enabled(c, e) && Quiet(e)
    ensures
      var c' := Step(c, e).client;
      && Inv(c')
      && (IsUp(c'.mode) ==> Due(c') == Due(c) + Lateness(c, [e]))
      && (!IsUp(c'.mode) ==> e.Expire? && e.now == Due(c) + Lateness(c, [e]))
  {
    StepKeepsInv(c, e);
    assert Run(Step(c, e).client, [e][1..]);
  }

  /**
   * From any state with a lease, and without a further ACK or NAK, the client
   * stays up until exactly the time the lease is due, plus what the two timers
   * on the way were late.
   */
  lemma {:induction false} LeaseRunsOut(c: Client, es: seq<Event>)
    requires Inv(c) && IsUp(c.mode) && Run(c, es) && es != [] && (forall e :: e in es ==> Quiet(e))
    requires !IsUp(Final(c, es).mode)
    requires forall i :: 0 <= i < |es| ==> IsUp(Final(c, es[..i]).mode)
    ensures es[|es| - 1].Expire? && es[|es| - 1].now == Due(c) + Lateness(c, es)
    decreases |es|
  {
    var c' := Step(c, es[0]).client;
    QuietStep(c, es[0]);
    assert Run(c', [es[0]][1..]);
    if |es| == 1 {
      assert es == [es[0]];
    } else {
      assert Final(c, es[..1]) == c' by { assert es[..1] == [es[0]]; }
      forall i | 0 <= i < |es| - 1
        ensures IsUp(Final(c', es[1..][..i]).mode)
      {
        assert es[..i + 1][1..] == es[1..][..i];
        assert Final(c, es[..i + 1]) == Final(c', es[1..][..i]);
      }
      LeaseRunsOut(c', es[1..]);
    }
  }

  /** From an accepted ACK to the DOWN report the timer delays total 1000 ms per second of lease time. */
  lemma AckToDown(c: Client, r: Reply, now: nat, es: seq<Event>)
    requires Inv(c) && r.kind == Ack && r.lease.Some? && OnReply(c, r, now).client != c
    requires var c' := OnReply(c, r, now).client;
             && Run(c', es) && es != [] && (forall e :: e in es ==> Quiet(e)) && !IsUp(Final(c', es).mode)
             && (forall i :: 0 <= i < |es| ==> IsUp(Final(c', es[..i]).mode))
    ensures es[|es| - 1].now == now + 1000 * r.lease.value + Lateness(OnReply(c, r, now).client, es)
  {
    AckSetsDue(c, r, now);
    LeaseRunsOut(OnReply(c, r, now).client, es);
  }
}
