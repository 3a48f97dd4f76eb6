/**
 * PacketProto: packets in a byte stream, each behind its 16-bit length; and the
 * decoder that finds them again however the stream is cut into reads.
 */
module PacketProto {
  import opened Bytes

  /** PACKETPROTO_MAXPAYLOAD */
  const MAX_PAYLOAD: nat := 0xFFFF
  /** sizeof(struct packetproto_header) */
  const HEADER: nat := 2

  /** What PacketProtoEncoder puts out for one packet. */
  function Encode(p: seq<byte>): (b: seq<byte>)
    ensures |b| == HEADER + |p|
  {
    ToLE(|p|, 2) + p
  }

  function EncodeAll(ps: seq<seq<byte>>): seq<byte> {
    if ps == [] then [] else Encode(ps[0]) + EncodeAll(ps[1..])
  }

  datatype Next = Packet(data: seq<byte>) | NeedMore | TooLarge

  /** What the bytes received so far begin with. */
  function Look(mtu: nat, c: seq<byte>): (n: Next)
    ensures n.Packet? ==> HEADER + |n.data| <= |c| && |n.data| <= mtu
  {
    if |c| < HEADER then NeedMore
    else
      var len := FromLE(c[..HEADER]);
      if len > mtu then TooLarge
      else if |c| - HEADER < len then NeedMore
      else Packet(c[HEADER..HEADER + len])
  }

  /** The decoder looks for exactly what the encoder writes: the length in two bytes, and then the packet. */
  lemma LooksExactly(mtu: nat, c: seq<byte>, p: seq<byte>)
    requires mtu <= MAX_PAYLOAD
    ensures Look(mtu, c) == Packet(p) <==> |p| <= mtu && Encode(p) <= c
    ensures Look(mtu, c) == TooLarge <==> |c| >= HEADER && U16(c, 0) > mtu
    ensures |p| <= MAX_PAYLOAD ==> U16(Encode(p), 0) == |p| && Encode(p)[HEADER..] == p
  {
    if |c| >= HEADER {
      U16IsLE(c, 0);
      assert c[0..2] == c[..HEADER];
    }
    if |p| <= MAX_PAYLOAD {
      Pow256Values();
      FromToLE(|p|, 2);
      U16IsLE(Encode(p), 0);
      assert Encode(p)[0..2] == ToLE(|p|, 2);
      if Encode(p) <= c {
        assert c[..HEADER] == Encode(p)[..HEADER] == ToLE(|p|, 2) && c[HEADER..HEADER + |p|] == p;
      }
    }
    if Look(mtu, c) == Packet(p) {
      assert c[..HEADER + |p|] == c[0..2] + p;
    }
  }

  /** Packets delivered, bytes kept, and whether an oversized packet stopped the decoder. */
  datatype Result = Result(packets: seq<seq<byte>>, rest: seq<byte>, failed: bool)

  function Extend(ps: seq<seq<byte>>, r: Result): Result {
    r.(packets := ps + r.packets)
  }

  /** All the decoder can deliver before it must read again. */
  function Drain(mtu: nat, c: seq<byte>): Result
    decreases |c|
  {
    match Look(mtu, c)
    case NeedMore => Result([], c, false)
    case TooLarge => Result([], [], true)
    case Packet(p) =>
      Extend([p], Drain(mtu, c[HEADER + |p|..]))
  }

  /** One step of draining, after `ps` have been delivered. */
  lemma DrainStep(mtu: nat, c: seq<byte>, ps: seq<seq<byte>>)
    ensures match Look(mtu, c)
            case Packet(p) => Extend(ps, Drain(mtu, c)) == Extend(ps + [p], Drain(mtu, c[HEADER + |p|..]))
            case NeedMore => Extend(ps, Drain(mtu, c)) == Result(ps, c, false)
            case TooLarge => Extend(ps, Drain(mtu, c)) == Result(ps, [], true)
  {
    var n := Look(mtu, c);
    if n.Packet? {
      var rest := Drain(mtu, c[HEADER + |n.data|..]).packets;
      assert ps + ([n.data] + rest) == (ps + [n.data]) + rest;
    } else {
      assert ps + [] == ps;
    }
  }

  /** One read after another, from a decoder that has kept `c`. */
  function Reads(mtu: nat, c: seq<byte>, rs: seq<seq<byte>>): Result
    decreases |rs|
  {
    if rs == [] then Result([], c, false)
    else
      var r := Drain(mtu, c + rs[0]);
      if r.failed then r
      else Extend(r.packets, Reads(mtu, r.rest, rs[1..]))
  }

  function Concat(rs: seq<seq<byte>>): seq<byte> {
    if rs == [] then [] else rs[0] + Concat(rs[1..])
  }

  lemma DrainNone(mtu: nat)
    ensures Drain(mtu, []) == Result([], [], false) && Look(mtu, []) == NeedMore
  {
  }

  /** Whatever part of an encoded packet has arrived, the decoder takes it for what it is. */
  lemma LookPrefix(mtu: nat, p: seq<byte>, c: seq<byte>, t: seq<byte>, more: seq<byte>)
    requires |p| <= mtu <= MAX_PAYLOAD && c + t == Encode(p) + more
    ensures |c| < HEADER + |p| ==> Look(mtu, c) == NeedMore
    ensures |c| >= HEADER + |p| ==> Look(mtu, c) == Packet(p) && c[HEADER + |p|..] + t == more
  {
    var all := Encode(p) + more;
    Pow256Values();
    FromToLE(|p|, 2);
    if |c| >= HEADER {
      assert c[..HEADER] == all[..HEADER] == ToLE(|p|, 2);
    }
    if |c| >= HEADER + |p| {
      assert c[HEADER..HEADER + |p|] == all[HEADER..HEADER + |p|] == p;
      assert all[HEADER + |p|..] == more;
      assert c[HEADER + |p|..] + t == (c + t)[HEADER + |p|..];
    }
  }

  /** An encoded packet is taken for what it is, whatever follows it. */
  lemma LookEncode(mtu: nat, p: seq<byte>, rest: seq<byte>)
    requires |p| <= mtu <= MAX_PAYLOAD
    ensures Look(mtu, Encode(p) + rest) == Packet(p)
  {
    assert (Encode(p) + rest) + [] == Encode(p) + rest;
    LookPrefix(mtu, p, Encode(p) + rest, [], rest);
  }

  lemma DrainFirst(mtu: nat, p: seq<byte>, c: seq<byte>, t: seq<byte>, more: seq<byte>)
    requires |p| <= mtu <= MAX_PAYLOAD && c + t == Encode(p) + more
    ensures |c| < HEADER + |p| ==> Drain(mtu, c) == Result([], c, false) && Look(mtu, c) == NeedMore
    ensures |c| >= HEADER + |p| ==> Drain(mtu, c) == Extend([p], Drain(mtu, c[HEADER + |p|..]))
    ensures |c| >= HEADER + |p| ==> c[HEADER + |p|..] + t == more
  {
    hide Look, Encode;
    LookPrefix(mtu, p, c, t, more);
  }

  /** From any prefix of an encoded stream come the packets that are whole in it, and the rest is kept. */
  lemma {:induction false} DrainPrefix(mtu: nat, ps: seq<seq<byte>>, c: seq<byte>, t: seq<byte>)
    requires mtu <= MAX_PAYLOAD && (forall p :: p in ps ==> |p| <= mtu) && c + t == EncodeAll(ps)
    ensures
      var r := Drain(mtu, c);
      && !r.failed && |r.packets| <= |ps| && r.packets == ps[..|r.packets|]
      && r.rest + t == EncodeAll(ps[|r.packets|..]) && Look(mtu, r.rest) == NeedMore
    decreases |ps|
  {
    hide Encode, Look, Drain;
    if ps == [] {
      assert c == [];
      DrainNone(mtu);
    } else {
      var p, more := ps[0], EncodeAll(ps[1..]);
      DrainFirst(mtu, p, c, t, more);
      if |c| >= HEADER + |p| {
        DrainPrefix(mtu, ps[1..], c[HEADER + |p|..], t);
        TakeNext(ps, |Drain(mtu, c[HEADER + |p|..]).packets|);
      } else {
        assert ps[0..] == ps;
      }
    }
  }

  lemma TakeNext(ps: seq<seq<byte>>, n: nat)
    requires ps != [] && n <= |ps| - 1
    ensures [ps[0]] + ps[1..][..n] == ps[..n + 1] && ps[1..][n..] == ps[n + 1..]
  {
  }

  /**
   * Framing: for every sequence of packets and every way the encoded stream is
   * cut into reads, the decoder delivers exactly those packets, in order, and
   * keeps nothing.
   */
  lemma {:induction false} AnySplit(mtu: nat, ps: seq<seq<byte>>, c: seq<byte>, rs: seq<seq<byte>>)
    requires mtu <= MAX_PAYLOAD && (forall p :: p in ps ==> |p| <= mtu)
    requires c + Concat(rs) == EncodeAll(ps) && Look(mtu, c) == NeedMore
    ensures Reads(mtu, c, rs) == Result(ps, [], false)
    decreases |rs|
  {
    hide Encode, Look, Drain;
    if rs == [] {
      assert c + [] == c;
      if ps != [] {
        LookPrefix(mtu, ps[0], c, [], EncodeAll(ps[1..]));
      }
    } else {
      var t := Concat(rs[1..]);
      assert (c + rs[0]) + t == c + (rs[0] + t);
      DrainPrefix(mtu, ps, c + rs[0], t);
      var r := Drain(mtu, c + rs[0]);
      var n := |r.packets|;
      AnySplit(mtu, ps[n..], r.rest, rs[1..]);
      assert ps[..n] + ps[n..] == ps;
    }
  }

  lemma {:induction false} ReadsSnoc(mtu: nat, c: seq<byte>, rs: seq<seq<byte>>, x: seq<byte>)
    ensures
      var r := Reads(mtu, c, rs);
      Reads(mtu, c, rs + [x]) == if r.failed then r else Extend(r.packets, Drain(mtu, r.rest + x))
    decreases |rs|
  {
    hide Drain;
    if rs == [] {
      assert rs + [x] == [x] && [x][1..] == [];
      var r := Drain(mtu, c + x);
      assert Extend([], r) == r by { assert [] + r.packets == r.packets; }
      assert Extend(r.packets, Result([], r.rest, false)).packets == r.packets + [] == r.packets;
    } else {
      assert (rs + [x])[0] == rs[0] && (rs + [x])[1..] == rs[1..] + [x];
      var r := Drain(mtu, c + rs[0]);
      ReadsSnoc(mtu, r.rest, rs[1..], x);
      var s := Reads(mtu, r.rest, rs[1..]);
      Assoc(r.packets, s.packets, Drain(mtu, s.rest + x).packets);
    }
  }

  lemma {:induction false} ConcatSnoc(rs: seq<seq<byte>>, x: seq<byte>)
    ensures Concat(rs + [x]) == Concat(rs) + x
  {
    if rs == [] {
      assert rs + [x] == [x] && [x][1..] == [];
    } else {
      assert (rs + [x])[1..] == rs[1..] + [x];
      ConcatSnoc(rs[1..], x);
    }
  }

  // ---- the encoder and the decoder object ----

  /** input_handler_done of the encoder: the length goes before the payload that is already in place. */
  method EncodeInPlace(packet: array<byte>, len: nat) returns (total: nat)
    requires HEADER + len <= packet.Length && len <= MAX_PAYLOAD
    modifies packet
    ensures total == HEADER + len && packet[..total] == Encode(old(packet[HEADER..HEADER + len]))
    ensures packet[total..] == old(packet[HEADER + len..])
  {
    var header := ToLE(len, HEADER);
    packet[0], packet[1] := header[0], header[1];
    total := HEADER + len;
    assert packet[..total] == packet[..HEADER] + packet[HEADER..total];
    assert packet[..HEADER] == header;
  }

  datatype Action = Deliver(data: seq<byte>) | Receive(offset: nat, len: nat) | Error(offset: nat, len: nat)

  class Decoder {
    const mtu: nat
    const buf: array<byte>
    var start: nat
    var used: nat

    ghost predicate Valid()
      reads this, buf
    {
      mtu <= MAX_PAYLOAD && buf.Length == HEADER + mtu && start + used <= buf.Length
    }

    /** The bytes received and not yet delivered. */
    ghost function Kept(): seq<byte>
      requires Valid()
      reads this, buf
    {
      buf[start..start + used]
    }

    /** PacketProtoDecoder_Init; the first receive covers the whole buffer */
    constructor (outputMtu: nat)
      ensures Valid() && fresh(buf) && Kept() == [] && start == 0 && buf.Length > 0
      ensures mtu == if outputMtu < MAX_PAYLOAD then outputMtu else MAX_PAYLOAD
    {
      mtu := if outputMtu < MAX_PAYLOAD then outputMtu else MAX_PAYLOAD;
      buf := new byte[HEADER + (if outputMtu < MAX_PAYLOAD then outputMtu else MAX_PAYLOAD)];
      start, used := 0, 0;
    }

    /** memmove of the kept bytes to the front of the buffer */
    method MoveToFront()
      requires Valid()
      modifies this`start, buf
      ensures Valid() && start == 0 && Kept() == old(Kept())
    {
      forall i | 0 <= i < used {
        buf[i] := buf[start + i];
      }
      start := 0;
    }

    /** The packet of length `len` at the front is taken out of the buffer. */
    method Take(len: nat) returns (data: seq<byte>)
      requires Valid() && HEADER + len <= used
      modifies this`start, this`used
      ensures Valid() && data == old(Kept()[HEADER..HEADER + len]) && Kept() == old(Kept())[HEADER + len..]
    {
      data := buf[start + HEADER..start + HEADER + len];
      SliceOfSlice(buf[..], start, start + used, HEADER, HEADER + len);
      SliceOfSlice(buf[..], start, start + used, HEADER + len, used);
      start, used := start + HEADER + len, used - (HEADER + len);
    }

    /**
     * process_data.  A packet that is complete is handed over; otherwise a
     * receive is posted, and always one of positive length inside the buffer.
     */
    method ProcessData() returns (act: Action)
      requires Valid()
      modifies this, buf
      ensures Valid()
      ensures match Look(mtu, old(Kept()))
              case Packet(p) => act == Deliver(p) && Kept() == old(Kept())[HEADER + |p|..]
              case NeedMore => act.Receive? && Kept() == old(Kept())
              case TooLarge => act.Error? && Kept() == []
      ensures !act.Deliver? ==> act.offset == start + used && 0 < act.len && act.offset + act.len == buf.Length
    {
      hide FromLE;
      if used >= HEADER {
        var len := FromLE(buf[start..start + HEADER]);
        SliceOfSlice(buf[..], start, start + used, 0, HEADER);
        if len > mtu {
          start, used := 0, 0;
          return Error(0, buf.Length);
        }
        if used - HEADER >= len {
          var data := Take(len);
          return Deliver(data);
        }
      }
      assert used < buf.Length;
      if start + used == buf.Length {
        MoveToFront();
      }
      act := Receive(start + used, buf.Length - (start + used));
    }

    /** input_handler_done: `data` has been received behind the kept bytes */
    method InputDone(data: seq<byte>) returns (act: Action)
      requires Valid() && 0 < |data| <= buf.Length - (start + used)
      modifies this, buf
      ensures Valid()
      ensures match Look(mtu, old(Kept()) + data)
              case Packet(p) => act == Deliver(p) && Kept() == (old(Kept()) + data)[HEADER + |p|..]
              case NeedMore => act.Receive? && Kept() == old(Kept()) + data
              case TooLarge => act.Error? && Kept() == []
      ensures !act.Deliver? ==> act.offset == start + used && 0 < act.len && act.offset + act.len == buf.Length
    {
      var at := start + used;
      ghost var kept := Kept();
      for i := 0 to |data|
        invariant unchanged(this)
        invariant forall k :: start <= k < at ==> buf[k] == kept[k - start]
        invariant forall k :: at <= k < at + i ==> buf[k] == data[k - at]
      {
        buf[at + i] := data[i];
      }
      used := used + |data|;
      assert Kept() == kept + data;
      act := ProcessData();
    }

    /** One read, and the completed sends that follow it, until the next receive is posted */
    method Absorb(data: seq<byte>) returns (packets: seq<seq<byte>>, act: Action)
      requires Valid() && 0 < |data| <= buf.Length - (start + used)
      modifies this, buf
      ensures Valid() && !act.Deliver?
      ensures Drain(mtu, old(Kept()) + data) == Result(packets, Kept(), act.Error?)
      ensures act.offset == start + used && 0 < act.len && act.offset + act.len == buf.Length
    {
      hide Look, Drain;
      packets := [];
      DrainStep(mtu, Kept() + data, []);
      ghost var all := Drain(mtu, Kept() + data);
      assert all == Extend([], all) by { assert [] + all.packets == all.packets; }
      act := InputDone(data);
      while act.Deliver?
        invariant Valid()
        invariant act.Deliver? ==> all == Extend(packets + [act.data], Drain(mtu, Kept()))
        invariant !act.Deliver? ==> all == Result(packets, Kept(), act.Error?)
        invariant !act.Deliver? ==> act.offset == start + used && 0 < act.len && act.offset + act.len == buf.Length
        decreases act.Deliver?, used
      {
        packets := packets + [act.data];
        DrainStep(mtu, Kept(), packets);
        act := ProcessData();
      }
    }

    /** PacketProtoDecoder_Reset: the kept bytes are forgotten, and the receive already posted still fits */
    method Reset()
      requires Valid()
      modifies this`start, this`used
      ensures Valid() && Kept() == [] && start + used == old(start + used)
    {
      start, used := start + used, 0;
    }
  }

  /**
   * The decoder object over a whole stream, read in pieces of any size that
   * fits the receives it posts: it delivers what the stream holds, up to an
   * oversized packet if there is one.
   */
  method ReadStream(d: Decoder, stream: seq<byte>)
    returns (packets: seq<seq<byte>>, rs: seq<seq<byte>>, failed: bool)
    requires d.Valid() && d.start + d.used < d.buf.Length
    modifies d, d.buf
    ensures d.Valid() && Reads(d.mtu, old(d.Kept()), rs) == Result(packets, d.Kept(), failed)
    ensures if failed then Concat(rs) <= stream else Concat(rs) == stream
    ensures forall x :: x in rs ==> x != []
  {
    hide Reads, Drain, Look;
    packets, rs, failed := [], [], false;
    var done := 0;
    NoReads(d.mtu, d.Kept());
    while done < |stream| && !failed
      invariant d.Valid() && d.start + d.used < d.buf.Length && done <= |stream|
      invariant Reads(d.mtu, old(d.Kept()), rs) == Result(packets, d.Kept(), failed)
      invariant Concat(rs) == stream[..done] && forall x :: x in rs ==> x != []
      decreases |stream| - done
    {
      var n: nat :| 0 < n <= d.buf.Length - (d.start + d.used) && n <= |stream| - done;
      var x := stream[done..done + n];
      ReadsSnoc(d.mtu, old(d.Kept()), rs, x);
      ConcatSnoc(rs, x);
      assert stream[..done + n] == stream[..done] + x;
      var ps, act := d.Absorb(x);
      packets, rs, failed := packets + ps, rs + [x], act.Error?;
      done := done + n;
    }
    assert stream[..|stream|] == stream;
  }

  lemma NoReads(mtu: nat, c: seq<byte>)
    ensures Reads(mtu, c, []) == Result([], c, false)
  {
  }

  /** No part of an encoded stream makes the decoder fail. */
  lemma NeverFails(mtu: nat, ps: seq<seq<byte>>, rs: seq<seq<byte>>)
    requires mtu <= MAX_PAYLOAD && (forall p :: p in ps ==> |p| <= mtu) && Concat(rs) <= EncodeAll(ps)
    ensures !Reads(mtu, [], rs).failed
  {
    hide Reads, Drain, Look;
    var stream := EncodeAll(ps);
    var rest := stream[|Concat(rs)|..];
    ConcatSnoc(rs, rest);
    assert [] + Concat(rs + [rest]) == stream;
    DrainNone(mtu);
    AnySplit(mtu, ps, [], rs + [rest]);
    ReadsSnoc(mtu, [], rs, rest);
  }

  /** A decoder that has kept nothing gives back exactly the packets of an encoded stream. */
  method ReadPackets(d: Decoder, stream: seq<byte>, ghost ps: seq<seq<byte>>) returns (packets: seq<seq<byte>>)
    requires d.Valid() && d.start + d.used < d.buf.Length && d.Kept() == []
    requires stream == EncodeAll(ps) && forall p :: p in ps ==> |p| <= d.mtu
    modifies d, d.buf
    ensures d.Valid() && packets == ps && d.Kept() == []
  {
    hide Reads, Drain, Look;
    var rs, failed;
    packets, rs, failed := ReadStream(d, stream);
    NeverFails(d.mtu, ps, rs);
    DrainNone(d.mtu);
    assert [] + Concat(rs) == Concat(rs);
    AnySplit(d.mtu, ps, [], rs);
  }
}
