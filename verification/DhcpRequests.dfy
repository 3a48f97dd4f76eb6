/**
 * Which messages a client sends, and when, told without its variables: from the
 * replies it got and the messages it sent itself.
 */
module DhcpRequests {
  import opened Bytes
  import opened DhcpModel

  /** What the messages so far amount to. */
  datatype Phase =
    | Refused      // a NAK came
    | Sought       // a discover went out
    | Asking       // an offer came and was asked for
    | Bound        // the request was acknowledged
    | Extending    // the address was asked for again

  /**
   * `xid` is the id of the last discover; `addr` and `server` are those of the
   * last offer taken; `asks` counts the requests for it; `due` is when the next
   * message is to go; `pending` says whether a send has not completed.
   */
  datatype Story = Story(phase: Phase, xid: nat, addr: nat, server: nat, asks: nat, due: nat, pending: bool)

  /** What a reply means after this story. */
  function Heed(s: Story, r: Reply, now: nat): Story {
    if r.xid != s.xid then s
    else if r.kind == Offer && s.phase == Sought && Complete(r) then
      s.(phase := Asking, addr := r.yiaddr, server := r.server.value, asks := 0)
    else if r.kind == Ack && (s.phase == Asking || s.phase == Extending) && Complete(r)
            && r.yiaddr == s.addr && r.server == Some(s.server) then
      s.(phase := Bound, due := now + 1000 * r.lease.value / 2)
    else if r.kind == Nak && (s.phase == Asking || s.phase == Bound || s.phase == Extending) && r.server == Some(s.server) then
      s.(phase := Refused, due := now + RESET_TIMEOUT)
    else s
  }

  function Heard(s: Story, e: Event): Story {
    match e
    case Receive(r, now) => Heed(s, r, now)
    case SendDone(_) => s.(pending := false)
    case Expire(_, _, _) => s
  }

  /** A message goes out. */
  function Said(s: Story, o: Out, now: nat): Story {
    match o
    case Discover(x, _) => s.(phase := Sought, xid := x, due := now + RESET_TIMEOUT, pending := true)
    case AskFor(_, _, _, _) =>
      if s.phase == Asking then s.(asks := s.asks + 1, due := now + REQUEST_TIMEOUT, pending := true)
      else s.(phase := Extending, due := now + RENEW_REQUEST_TIMEOUT, pending := true)
    case Up => s
    case Down => s
  }

  function SaidAll(s: Story, out: seq<Out>, now: nat): Story
    decreases |out|
  {
    if out == [] then s else SaidAll(Said(s, out[0], now), out[1..], now)
  }

  function Next(s: Story, e: Event, out: seq<Out>): Story {
    SaidAll(Heard(s, e), out, e.now)
  }

  /**
   * A request is right: for the address and the transaction of the offer, to
   * its server until the server has acknowledged and to no one by name after
   * that, and not a fifth one for the same offer.
   */
  predicate RightRequest(s: Story, o: Out)
    requires o.AskFor?
  {
    && o.yiaddr == s.addr && o.xid == s.xid && o.sent == !s.pending
    && match s.phase
       case Asking => o.server == Some(s.server) && s.asks < MAX_REQUESTS
       case Bound => o.server == None
       case Extending => o.server == None
       case _ => false
  }

  /** The first message of a step. */
  predicate Asks(s: Story, out: seq<Out>) {
    |out| == 1 && out[0].AskFor? && RightRequest(s, out[0])
  }

  predicate Seeks(s: Story, out: seq<Out>) {
    out != [] && out[0].Discover? && out[0].sent == !s.pending && forall o :: o in out[1..] ==> o == Down
  }

  /** What goes out at an event: at once to an offer, and otherwise only when it is due. */
  predicate Fitting(s: Story, e: Event, out: seq<Out>) {
    match e
    case SendDone(_) => out == []
    case Receive(r, now) =>
      if s.phase == Sought && Heed(s, r, now).phase == Asking then Asks(Heed(s, r, now), out)
      else forall o :: o in out ==> o == Up || o == Down
    case Expire(t, now, _) =>
      if t == Lease then s.phase == Extending && Seeks(s, out) && out[1..] == [Down]
      else
        && now >= s.due
        && match s.phase
           case Refused => Seeks(s, out)
           case Sought => Seeks(s, out)
           case Asking => if s.asks < MAX_REQUESTS then Asks(s, out) else Seeks(s, out)
           case Bound => Asks(s, out)
           case Extending => Asks(s, out)
  }

  // ---- the client tells this story ----

  function PhaseOf(m: Mode): Phase {
    match m
    case Resetting => Refused
    case SentDiscover => Sought
    case SentRequest => Asking
    case Finished => Bound
    case Renewing => Extending
  }

  /** The timer of the next message. */
  function MessageTimer(m: Mode): Timer {
    match m
    case Resetting => Reset
    case SentDiscover => Reset
    case SentRequest => Request
    case Finished => Renew
    case Renewing => RenewRequest
  }

  ghost predicate Tells(c: Client, s: Story) {
    && s.phase == PhaseOf(c.mode) && s.xid == c.xid && s.pending == c.sending
    && MessageTimer(c.mode) in c.timers && c.timers[MessageTimer(c.mode)] == s.due
    && (c.mode != Resetting && c.mode != SentDiscover ==> s.addr == c.yiaddr && s.server == c.server)
    && (c.mode == SentRequest ==> s.asks == c.requestCount)
  }

  lemma SaidOne(s: Story, out: seq<Out>, now: nat)
    requires |out| == 1 || (|out| == 2 && out[1] == Down)
    ensures SaidAll(s, out, now) == Said(s, out[0], now)
  {
    if |out| == 2 {
      var s1 := Said(s, out[0], now);
      assert out[1..] == [Down] && SaidAll(s1, [Down], now) == SaidAll(Said(s1, Down, now), [Down][1..], now);
    } else {
      assert out[1..] == [];
    }
  }

  lemma ReplyTells(c: Client, s: Story, r: Reply, now: nat)
    requires Inv(c) && Tells(c, s)
    ensures
      var Result(c', out) := OnReply(c, r, now);
      Fitting(s, Receive(r, now), out) && Tells(c', Next(s, Receive(r, now), out))
  {
    var out := OnReply(c, r, now).out;
    if out != [] {
      SaidOne(Heed(s, r, now), out, now);
    }
  }

  lemma TimerTells(c: Client, s: Story, e: Event)
    requires Inv(c) && Tells(c, s) && Enabled(c, e) && e.Expire?
    ensures
      var Result(c', out) := Step(c, e);
      Fitting(s, e, out) && Tells(c', Next(s, e, out))
  {
    HandlerAsserts(c, e);
    var out := Step(c, e).out;
    SaidOne(s, out, e.now);
    assert |out| == 2 ==> out[1..] == [Down];
  }

  lemma StepTells(c: Client, s: Story, e: Event)
    requires Inv(c) && Tells(c, s) && Enabled(c, e)
    ensures
      var Result(c', out) := Step(c, e);
      Fitting(s, e, out) && Tells(c', Next(s, e, out))
  {
    match e
    case Receive(r, now) => ReplyTells(c, s, r, now);
    case Expire(_, _, _) => TimerTells(c, s, e);
    case SendDone(_) =>
  }

  // ---- over every run ----

  predicate AllFitting(c: Client, s: Story, es: seq<Event>)
    decreases |es|
  {
    es == [] ||
    (var Result(c', out) := Step(c, es[0]);
     Fitting(s, es[0], out) && AllFitting(c', Next(s, es[0], out), es[1..]))
  }

  function StoryOf(c: Client, s: Story, es: seq<Event>): Story
    decreases |es|
  {
    if es == [] then s else StoryOf(Step(c, es[0]).client, Next(s, es[0], Step(c, es[0]).out), es[1..])
  }

  lemma {:induction false} RunTells(c: Client, s: Story, es: seq<Event>)
    requires Inv(c) && Tells(c, s) && Run(c, es)
    ensures AllFitting(c, s, es) && Tells(Final(c, es), StoryOf(c, s, es))
    decreases |es|
  {
    hide Inv, Tells, Step, Enabled, Fitting, Next;
    if es != [] {
      StepKeepsInv(c, es[0]);
      StepTells(c, s, es[0]);
      RunTells(Step(c, es[0]).client, Next(s, es[0], Step(c, es[0]).out), es[1..]);
    }
  }

  /** The story of a client that has just been started, with its first discover. */
  function Opening(now: nat, random: nat): Story {
    Story(Sought, random, 0, 0, 0, now + RESET_TIMEOUT, true)
  }

  /**
   * In every run from the start, every message is the right one at the right
   * time: a request asks for the address of the last offer taken, under the id
   * of the last discover, from the server of the offer as long as it has not
   * acknowledged and from no one by name after that; for one offer there are at
   * most MAX_REQUESTS, REQUEST_TIMEOUT apart, and then a new discover.
   */
  lemma EveryMessage(now: nat, random: nat, es: seq<Event>)
    requires Run(Init(now, random).client, es)
    ensures Init(now, random).out == [Discover(random, true)]
    ensures
      var c, s := Init(now, random).client, Opening(now, random);
      && AllFitting(c, s, es) && Tells(Final(c, es), StoryOf(c, s, es))
      && (StoryOf(c, s, es).phase == Asking ==> 1 <= StoryOf(c, s, es).asks <= MAX_REQUESTS)
  {
    var c, s := Init(now, random).client, Opening(now, random);
    assert c.timers.Keys == {Reset};
    RunTells(c, s, es);
    RunKeepsInv(c, es);
  }
}
