/**
 * The DHCP client core as an object whose handlers change its fields and its
 * timers, each proved to be a step of the model.
 */
module Dhcp {
  import opened Bytes
  import opened DhcpModel

  class Core {
    var mode: Mode
    /** The running timers, with the time each is due. */
    var timers: map<Timer, nat>
    var requestCount: nat
    var xid: nat
    var xidReuse: nat
    var yiaddr: nat
    var server: nat
    var acked: Grant
    var sending: bool

    ghost function State(): Client
      reads this
    {
      Client(mode, timers, requestCount, xid, xidReuse, yiaddr, server, acked, sending)
    }

    /** BDHCPClientCore_Init */
    constructor (now: nat, random: nat)
      ensures Result(State(), [Discover(xid, true)]) == Init(now, random) && Inv(State())
    {
      mode, timers, requestCount, xidReuse := Resetting, map[], 0, 0;
      xid, yiaddr, server, acked, sending := 0, 0, 0, Grant(0, 0, None, []), false;
      new;
      var out := StartProcess(true, now, random);
    }

    /** send_message: nothing is sent while a send is pending */
    method SendMessage() returns (sent: bool)
      modifies this`sending
      ensures sending && sent == !old(sending)
    {
      if sending {
        return false;
      }
      sending := true;
      return true;
    }

    method StartProcess(force: bool, now: nat, random: nat) returns (out: seq<Out>)
      modifies this
      ensures Result(State(), out) == DhcpModel.StartProcess(old(State()), force, now, random)
    {
      if force || xidReuse == XID_REUSE_MAX {
        xid := random;
        xidReuse := 0;
      }
      xidReuse := xidReuse + 1;
      var sent := SendMessage();
      out := [Discover(xid, sent)];
      timers := timers[Reset := now + RESET_TIMEOUT];
      mode := SentDiscover;
    }

    /** A timer has gone off: the reactor takes it out and calls its handler. */
    method TimerExpired(t: Timer, now: nat, random: nat) returns (out: seq<Out>)
      requires Inv(State()) && Enabled(State(), Expire(t, now, random))
      modifies this
      ensures Result(State(), out) == Step(old(State()), Expire(t, now, random)) && Inv(State())
    {
      StepKeepsInv(State(), Expire(t, now, random));
      hide Inv, Enabled;
      timers := timers - {t};
      match t {
        case Reset => out := StartProcess(mode == Resetting, now, random);
        case Request => out := RequestTimer(now, random);
        case Renew => out := RenewTimer(now);
        case RenewRequest => out := RenewRequestTimer(now);
        case Lease => out := LeaseTimer(now, random);
      }
    }

    method RequestTimer(now: nat, random: nat) returns (out: seq<Out>)
      requires Request !in timers
      modifies this
      ensures Result(State(), out) == OnTimer(old(State()), Request, now, random)
    {
      assert timers - {Request} == timers;
      if requestCount == MAX_REQUESTS {
        out := StartProcess(false, now, random);
        return;
      }
      var sent := SendMessage();
      out := [AskFor(yiaddr, Some(server), xid, sent)];
      timers := timers[Request := now + REQUEST_TIMEOUT];
      requestCount := requestCount + 1;
    }

    method RenewTimer(now: nat) returns (out: seq<Out>)
      requires Renew !in timers
      modifies this
      ensures Result(State(), out) == OnTimer(old(State()), Renew, now, 0)
    {
      assert timers - {Renew} == timers;
      var sent := SendMessage();
      out := [AskFor(yiaddr, None, xid, sent)];
      timers := timers[RenewRequest := now + RENEW_REQUEST_TIMEOUT];
      timers := timers[Lease := now + LeaseTimeout(acked.lease)];
      mode := Renewing;
    }

    method RenewRequestTimer(now: nat) returns (out: seq<Out>)
      requires RenewRequest !in timers
      modifies this
      ensures Result(State(), out) == OnTimer(old(State()), RenewRequest, now, 0)
    {
      assert timers - {RenewRequest} == timers;
      var sent := SendMessage();
      out := [AskFor(yiaddr, None, xid, sent)];
      timers := timers[RenewRequest := now + RENEW_REQUEST_TIMEOUT];
    }

    method LeaseTimer(now: nat, random: nat) returns (out: seq<Out>)
      requires Lease !in timers
      modifies this
      ensures Result(State(), out) == OnTimer(old(State()), Lease, now, random)
    {
      assert timers - {Lease} == timers;
      timers := timers - {RenewRequest};
      out := StartProcess(true, now, random);
      out := out + [Down];
    }

    /** recv_handler_done, from where the message has parsed */
    method ReplyReceived(r: Reply, now: nat) returns (out: seq<Out>)
      requires Inv(State())
      modifies this
      ensures Result(State(), out) == OnReply(old(State()), r, now) && Inv(State())
    {
      StepKeepsInv(State(), Receive(r, now));
      hide Inv;
      out := [];
      if mode == Resetting || r.xid != xid || r.kind == Other || r.server == None {
        return;
      }
      if r.kind == Nak {
        if r.server.value == server {
          out := NakReceived(now);
        }
        return;
      }
      if r.yiaddr == 0 || r.lease == None || r.mask == None {
        return;
      }
      if mode == SentDiscover && r.kind == Offer {
        yiaddr, server := r.yiaddr, r.server.value;
        var sent := SendMessage();
        out := [AskFor(yiaddr, Some(server), xid, sent)];
        timers := timers - {Reset};
        timers := timers[Request := now + REQUEST_TIMEOUT];
        mode, requestCount := SentRequest, 1;
      } else if r.kind == Ack && r.yiaddr == yiaddr && r.server.value == server {
        out := AckReceived(r, now);
      }
    }

    method NakReceived(now: nat) returns (out: seq<Out>)
      modifies this
      ensures Result(State(), out) == OnNak(old(State()), now)
    {
      out := [];
      match mode {
        case SentRequest =>
          timers := timers - {Request};
        case Finished =>
          timers := timers - {Renew};
          out := [Down];
        case Renewing =>
          timers := timers - {RenewRequest};
          timers := timers - {Lease};
          out := [Down];
        case _ =>
          return;
      }
      timers := timers[Reset := now + RESET_TIMEOUT];
      mode := Resetting;
    }

    /** An ACK that names the address and the server of the offer */
    method AckReceived(r: Reply, now: nat) returns (out: seq<Out>)
      requires r.kind == Ack && r.xid == xid && r.yiaddr == yiaddr != 0 && r.server == Some(server)
      requires mode != Resetting && r.lease.Some? && r.mask.Some?
      modifies this
      ensures Result(State(), out) == OnReply(old(State()), r, now)
    {
      out := [];
      if mode == SentRequest {
        acked := Grant(r.lease.value, r.mask.value, r.router, r.dns);
        timers := timers - {Request};
        out := [Up];
      } else if mode == Renewing {
        acked := acked.(lease := r.lease.value);
        timers := timers - {RenewRequest};
        timers := timers - {Lease};
      } else {
        return;
      }
      timers := timers[Renew := now + RenewTimeout(acked.lease)];
      mode := Finished;
    }

    /** send_handler_done */
    method SendDone()
      requires Inv(State()) && sending
      modifies this`sending
      ensures State() == old(State()).(sending := false) && Inv(State())
    {
      sending := false;
    }
  }
}
