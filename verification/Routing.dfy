/**
 * Routing one received frame to many flows without copying it more often than
 * needed: the packet that holds the frame is handed to a flow's buffer, and a
 * free packet of that buffer takes its place.  The result is what plain copying
 * would give, and no packet is ever lost or shared.
 */
module Routing {
  import opened Bytes

  /** DATAPROTO_MAX_OVERHEAD: flags, source id, number of ids, one id */
  const OVERHEAD: nat := 7
  /** The flags byte is written by the sink when the packet goes out. */
  const FLAGS: nat := 1

  // ---- what is to be achieved ----

  /** What a flow's buffer amounts to: the queued packets without their flags byte, and the room left. */
  datatype Queue = Queue(packets: seq<seq<byte>>, room: nat)
  type Queues = map<nat, Queue>

  /** A flow from peer `from` to peer `to`, and its buffer. */
  datatype Flow = Flow(from: nat, to: nat, b: nat)

  /** The packet of a flow, without its flags byte. */
  function Packet(f: Flow, frame: seq<byte>): (p: seq<byte>)
    ensures |p| == OVERHEAD - FLAGS + |frame|
  {
    ToLE(f.from, 2) + ToLE(1, 2) + ToLE(f.to, 2) + frame
  }

  /** One packet is queued if there is room for it and dropped otherwise. */
  function Put(q: Queue, p: seq<byte>): Queue {
    if q.room == 0 then q else Queue(q.packets + [p], q.room - 1)
  }

  /** Plain copying: each destination in turn gets its own copy of the frame. */
  function CopyAll(qs: Queues, dests: seq<Flow>, frame: seq<byte>): (qs': Queues)
    requires forall f :: f in dests ==> f.b in qs
    ensures qs'.Keys == qs.Keys
  {
    if dests == [] then qs
    else
      var f := dests[|dests| - 1];
      var before := CopyAll(qs, dests[..|dests| - 1], frame);
      before[f.b := Put(before[f.b], Packet(f, frame))]
  }

  /** The packets meant for buffer `b`, one for each time it is a destination. */
  function Mine(b: nat, dests: seq<Flow>, frame: seq<byte>): seq<seq<byte>> {
    if dests == [] then []
    else
      var f := dests[|dests| - 1];
      var before := Mine(b, dests[..|dests| - 1], frame);
      if f.b == b then before + [Packet(f, frame)] else before
  }

  /** As many of `ps` as fit. */
  function PutAll(q: Queue, ps: seq<seq<byte>>): Queue {
    var n := Min(q.room, |ps|);
    Queue(q.packets + ps[..n], q.room - n)
  }

  lemma PutLast(q: Queue, ps: seq<seq<byte>>, p: seq<byte>)
    ensures Put(PutAll(q, ps), p) == PutAll(q, ps + [p])
  {
    if q.room > |ps| {
      assert (ps + [p])[..|ps| + 1] == ps + [p];
      assert ps[..|ps|] == ps;
      assert q.packets + ps + [p] == q.packets + (ps + [p]);
    } else {
      assert (ps + [p])[..q.room] == ps[..q.room];
    }
  }

  /** Copying gives every buffer its own packets, as many as it has room for, and touches no other. */
  lemma {:induction false} CopyAllIs(qs: Queues, dests: seq<Flow>, frame: seq<byte>, b: nat)
    requires (forall f :: f in dests ==> f.b in qs) && b in qs
    ensures CopyAll(qs, dests, frame)[b] == PutAll(qs[b], Mine(b, dests, frame))
    decreases |dests|
  {
    if dests == [] {
      assert qs[b].packets + [] == qs[b].packets;
    } else {
      var f := dests[|dests| - 1];
      CopyAllIs(qs, dests[..|dests| - 1], frame, b);
      PutLast(qs[b], Mine(b, dests[..|dests| - 1], frame), Packet(f, frame));
    }
  }

  // ---- packet memory, and the lists that hold packets ----

  /** The address of a packet. */
  type Ptr = nat
  /** What is stored behind each address. */
  type Memory = map<Ptr, seq<byte>>

  /** A packet in use, with its `len`. */
  datatype Slot = Slot(p: Ptr, len: nat)
  /** packets_used and packets_free */
  datatype Buffer = Buffer(used: seq<Slot>, free: seq<Ptr>)
  type Buffers = map<nat, Buffer>

  ghost predicate Stored(mem: Memory, p: Ptr, mtu: nat) {
    p in mem && |mem[p]| == mtu
  }

  ghost predicate SlotOk(mem: Memory, s: Slot, mtu: nat) {
    Stored(mem, s.p, mtu) && FLAGS <= s.len <= mtu
  }

  ghost predicate Distinct(b: Buffer) {
    && (forall i, j :: 0 <= i < j < |b.used| ==> b.used[i].p != b.used[j].p)
    && (forall i, j :: 0 <= i < j < |b.free| ==> b.free[i] != b.free[j])
    && (forall s :: s in b.used ==> s.p !in b.free)
  }

  ghost predicate BufferOk(mem: Memory, b: Buffer, mtu: nat, size: nat) {
    && |b.used| + |b.free| == size && Distinct(b)
    && (forall s :: s in b.used ==> SlotOk(mem, s, mtu))
    && (forall p :: p in b.free ==> Stored(mem, p, mtu))
  }

  function Owned(b: Buffer): set<Ptr> {
    (set s | s in b.used :: s.p) + (set p | p in b.free)
  }

  /** What the queued packets hold, without their flags bytes. */
  ghost function Contents(mem: Memory, used: seq<Slot>): seq<seq<byte>>
    requires forall s :: s in used ==> s.p in mem && FLAGS <= s.len <= |mem[s.p]|
  {
    if used == [] then []
    else
      var s := used[|used| - 1];
      Contents(mem, used[..|used| - 1]) + [mem[s.p][FLAGS..s.len]]
  }

  ghost function Value(mem: Memory, b: Buffer, mtu: nat, size: nat): Queue
    requires BufferOk(mem, b, mtu, size)
  {
    Queue(Contents(mem, b.used), |b.free|)
  }

  /** Writing a packet that is not queued, or only its flags byte, changes nothing for the queue. */
  lemma {:induction false} ContentsSame(mem: Memory, used: seq<Slot>, p: Ptr, v: seq<byte>)
    requires forall s :: s in used ==> s.p in mem && FLAGS <= s.len <= |mem[s.p]|
    requires forall s :: s in used && s.p == p ==> |v| == |mem[p]| && v[FLAGS..] == mem[p][FLAGS..]
    ensures Contents(mem[p := v], used) == Contents(mem, used)
  {
    if used != [] {
      var s := used[|used| - 1];
      assert s.p == p ==> v[FLAGS..s.len] == v[FLAGS..][..s.len - FLAGS] == mem[p][FLAGS..s.len];
      ContentsSame(mem, used[..|used| - 1], p, v);
    }
  }

  lemma {:induction false} ContentsTail(mem: Memory, used: seq<Slot>)
    requires used != [] && forall s :: s in used ==> s.p in mem && FLAGS <= s.len <= |mem[s.p]|
    ensures Contents(mem, used) == [mem[used[0].p][FLAGS..used[0].len]] + Contents(mem, used[1..])
    decreases |used|
  {
    if |used| > 1 {
      ContentsTail(mem, used[..|used| - 1]);
      assert used[1..][..|used| - 2] == used[..|used| - 1][1..];
    } else {
      assert Contents(mem, used[..0]) == [];
    }
  }

  // ---- everything together ----

  ghost function Holdings(bs: Buffers): map<nat, set<Ptr>> {
    map b | b in bs :: Owned(bs[b])
  }

  /** The current packet is in no buffer, and no two buffers share a packet. */
  ghost predicate Separate(current: Ptr, own: map<nat, set<Ptr>>) {
    && (forall b :: b in own ==> current !in own[b])
    && (forall b, c :: b in own && c in own && b != c ==> own[b] !! own[c])
  }

  ghost predicate BuffersOk(mem: Memory, bs: Buffers, mtu: nat, size: nat) {
    forall b {:trigger bs[b]} :: b in bs ==> BufferOk(mem, bs[b], mtu, size)
  }

  ghost predicate Apart(mem: Memory, bs: Buffers, current: Ptr, mtu: nat, size: nat) {
    && Stored(mem, current, mtu)
    && BuffersOk(mem, bs, mtu, size)
    && Separate(current, Holdings(bs))
  }

  ghost function Values(mem: Memory, bs: Buffers, mtu: nat, size: nat): (qs: Queues)
    requires BuffersOk(mem, bs, mtu, size)
    ensures qs.Keys == bs.Keys
  {
    map b | b in bs :: Value(mem, bs[b], mtu, size)
  }

  /** What is queued first is the first packet without its flags byte. */
  lemma FirstIs(mem: Memory, bs: Buffers, mtu: nat, size: nat, b: nat)
    requires BuffersOk(mem, bs, mtu, size) && b in bs && bs[b].used != []
    ensures
      var s := bs[b].used[0];
      && SlotOk(mem, s, mtu)
      && Values(mem, bs, mtu, size)[b].packets != [] && Values(mem, bs, mtu, size)[b].packets[0] == mem[s.p][FLAGS..s.len]
  {
    assert BufferOk(mem, bs[b], mtu, size) && bs[b].used[0] in bs[b].used;
    ContentsTail(mem, bs[b].used);
  }

  lemma RoomIs(mem: Memory, bs: Buffers, mtu: nat, size: nat, b: nat)
    requires BuffersOk(mem, bs, mtu, size) && b in bs
    ensures Values(mem, bs, mtu, size)[b].room == |bs[b].free|
  {
  }

  /** Every packet there is. */
  ghost function AllPackets(current: Ptr, own: map<nat, set<Ptr>>): set<Ptr> {
    {current} + set b, p | b in own && p in own[b] :: p
  }

  /** The current packet and a packet of `b` change places: none is lost, none shared. */
  lemma Exchanged(own: map<nat, set<Ptr>>, b: nat, p: Ptr, np: Ptr)
    requires b in own && np in own[b] && Separate(p, own)
    ensures var own' := own[b := own[b] - {np} + {p}];
            Separate(np, own') && AllPackets(np, own') == AllPackets(p, own)
  {
    var own' := own[b := own[b] - {np} + {p}];
    forall m | m in AllPackets(np, own')
      ensures m in AllPackets(p, own)
    {
      if m != np {
        var c :| c in own' && m in own'[c];
        assert m == p || m in own[c];
      }
    }
    forall m | m in AllPackets(p, own)
      ensures m in AllPackets(np, own')
    {
      if m == p {
        assert m in own'[b];
      } else {
        var c :| c in own && m in own[c];
        assert m == np || m in own'[c];
      }
    }
  }

  /** The current packet, a new one, and any flags byte can be written without a change in any queue. */
  lemma WriteUnseen(mem: Memory, bs: Buffers, current: Ptr, mtu: nat, size: nat, p: Ptr, v: seq<byte>)
    requires Apart(mem, bs, current, mtu, size) && |v| == mtu
    requires p == current || p !in mem || (FLAGS <= mtu && Stored(mem, p, mtu) && v[FLAGS..] == mem[p][FLAGS..])
    ensures Apart(mem[p := v], bs, current, mtu, size)
    ensures Values(mem[p := v], bs, mtu, size) == Values(mem, bs, mtu, size)
  {
    hide Separate, Distinct;
    var mem' := mem[p := v];
    forall b | b in bs
      ensures BufferOk(mem', bs[b], mtu, size)
      ensures Value(mem', bs[b], mtu, size) == Value(mem, bs[b], mtu, size)
    {
      UnseenIn(bs, current, b);
      ContentsSame(mem, bs[b].used, p, v);
    }
  }

  lemma UnseenIn(bs: Buffers, current: Ptr, b: nat)
    requires Separate(current, Holdings(bs)) && b in bs
    ensures forall s :: s in bs[b].used ==> s.p != current
  {
    assert current !in Holdings(bs)[b];
    assert forall s :: s in bs[b].used ==> s.p in Owned(bs[b]);
  }

  /** The buffer after RouteBufferSource_Route has put the packet `p` in and taken a free one out. */
  function Exchange(b: Buffer, p: Ptr, len: nat): Buffer
    requires b.free != []
  {
    Buffer(b.used + [Slot(p, len)], b.free[..|b.free| - 1])
  }

  lemma ExchangeOk(mem: Memory, b: Buffer, p: Ptr, len: nat, mtu: nat, size: nat)
    requires BufferOk(mem, b, mtu, size) && b.free != [] && p !in Owned(b)
    requires Stored(mem, p, mtu) && FLAGS <= len <= mtu
    ensures BufferOk(mem, Exchange(b, p, len), mtu, size)
    ensures Value(mem, Exchange(b, p, len), mtu, size) == Put(Value(mem, b, mtu, size), mem[p][FLAGS..len])
    ensures Owned(Exchange(b, p, len)) == Owned(b) - {b.free[|b.free| - 1]} + {p}
  {
    var b' := Exchange(b, p, len);
    assert b'.used[..|b.used|] == b.used;
    ExchangeDistinct(b, p, len);
    ExchangeOwned(b, p, len);
    hide Distinct, Owned;
  }

  lemma ExchangeDistinct(b: Buffer, p: Ptr, len: nat)
    requires Distinct(b) && b.free != [] && p !in Owned(b)
    ensures Distinct(Exchange(b, p, len))
  {
    var b' := Exchange(b, p, len);
    assert forall s :: s in b.used ==> s.p in Owned(b);
    assert forall q :: q in b'.free ==> q in b.free && q in Owned(b);
  }

  lemma ExchangeOwned(b: Buffer, p: Ptr, len: nat)
    requires Distinct(b) && b.free != [] && p !in Owned(b)
    ensures Owned(Exchange(b, p, len)) == Owned(b) - {b.free[|b.free| - 1]} + {p}
  {
    var b' := Exchange(b, p, len);
    var np := b.free[|b.free| - 1];
    assert b.free == b'.free + [np];
    assert np !in b'.free && forall q :: q in b.free <==> q in b'.free || q == np;
    assert forall s :: s in b'.used <==> s in b.used || s == Slot(p, len);
    assert forall s :: s in b.used ==> s.p != np;
  }

  /** The exchange with buffer `b`, among all the others. */
  lemma ExchangeApart(mem: Memory, bs: Buffers, current: Ptr, mtu: nat, size: nat, b: nat, len: nat)
    requires Apart(mem, bs, current, mtu, size) && b in bs && bs[b].free != [] && FLAGS <= len <= mtu
    ensures
      var np := bs[b].free[|bs[b].free| - 1];
      var bs' := bs[b := Exchange(bs[b], current, len)];
      && Apart(mem, bs', np, mtu, size) && np != current
      && AllPackets(np, Holdings(bs')) == AllPackets(current, Holdings(bs))
      && Values(mem, bs', mtu, size) ==
         Values(mem, bs, mtu, size)[b := Put(Value(mem, bs[b], mtu, size), mem[current][FLAGS..len])]
  {
    hide Distinct, Contents, AllPackets, Exchange, Put;
    var np := bs[b].free[|bs[b].free| - 1];
    var bs' := bs[b := Exchange(bs[b], current, len)];
    var own := Holdings(bs);
    assert current !in own[b] && np in own[b];
    ExchangeOk(mem, bs[b], current, len, mtu, size);
    Exchanged(own, b, current, np);
    assert Holdings(bs') == own[b := own[b] - {np} + {current}];
  }

  /** A buffer made of packets that were not there before is apart from all others. */
  lemma NewBuffer(mem0: Memory, mem: Memory, bs: Buffers, current: Ptr, mtu: nat, size: nat, b: nat, ps: seq<Ptr>)
    requires Apart(mem0, bs, current, mtu, size) && Apart(mem, bs, current, mtu, size) && b !in bs && |ps| == size
    requires forall i :: 0 <= i < |ps| ==> ps[i] !in mem0 && ps[i] !in ps[..i] && Stored(mem, ps[i], mtu)
    ensures
      var bs' := bs[b := Buffer([], ps)];
      && Apart(mem, bs', current, mtu, size)
      && Values(mem, bs', mtu, size) == Values(mem, bs, mtu, size)[b := Queue([], size)]
  {
    hide BufferOk, Owned;
    var added := Buffer([], ps);
    var bs' := bs[b := added];
    NewOk(mem0, mem, mtu, size, ps);
    forall c | c in bs
      ensures Owned(bs[c]) !! Owned(added)
    {
      OwnedIsStored(mem0, bs[c], mtu, size);
    }
    assert Holdings(bs') == Holdings(bs)[b := Owned(added)];
  }

  lemma NewOk(mem0: Memory, mem: Memory, mtu: nat, size: nat, ps: seq<Ptr>)
    requires |ps| == size
    requires forall i :: 0 <= i < |ps| ==> ps[i] !in mem0 && ps[i] !in ps[..i] && Stored(mem, ps[i], mtu)
    ensures BufferOk(mem, Buffer([], ps), mtu, size) && Owned(Buffer([], ps)) !! mem0.Keys
    ensures Value(mem, Buffer([], ps), mtu, size) == Queue([], size)
  {
    forall i, j | 0 <= i < j < |ps|
      ensures ps[i] != ps[j]
    {
      assert ps[i] == ps[..j][i];
    }
  }

  lemma OwnedIsStored(mem: Memory, b: Buffer, mtu: nat, size: nat)
    requires BufferOk(mem, b, mtu, size)
    ensures Owned(b) <= mem.Keys
  {
  }

  /** The header that DataProtoFlow_Route writes, `flags` being what happens to be there. */
  function Header(f: Flow, flags: byte): (h: seq<byte>)
    ensures |h| == OVERHEAD
  {
    [flags] + ToLE(f.from, 2) + ToLE(1, 2) + ToLE(f.to, 2)
  }

  lemma Addressed(packet: seq<byte>, f: Flow, flags: byte, n: nat)
    requires OVERHEAD + n <= |packet|
    ensures
      var packet' := Splice(packet, 0, Header(f, flags));
      && packet'[FLAGS..OVERHEAD + n] == Packet(f, packet[OVERHEAD..OVERHEAD + n])
      && packet'[OVERHEAD..OVERHEAD + n] == packet[OVERHEAD..OVERHEAD + n]
      && (PeerIds(f) ==> Reading(packet'[..OVERHEAD + n], n) == Some(Heard(flags, f.from, [f.to], packet[OVERHEAD..OVERHEAD + n])))
  {
    hide ToLE;
    var header, frame := Header(f, flags), packet[OVERHEAD..OVERHEAD + n];
    var packet' := Splice(packet, 0, header);
    assert packet'[..OVERHEAD] == header && packet'[OVERHEAD..] == packet[OVERHEAD..];
    assert packet'[OVERHEAD..OVERHEAD + n] == packet'[OVERHEAD..][..n] == frame;
    assert packet'[FLAGS..OVERHEAD + n] == packet'[..OVERHEAD][FLAGS..] + packet'[OVERHEAD..OVERHEAD + n];
    assert header[FLAGS..] == ToLE(f.from, 2) + ToLE(1, 2) + ToLE(f.to, 2);
    assert packet'[..OVERHEAD + n] == [flags] + packet'[FLAGS..OVERHEAD + n] by { assert packet'[0] == header[0]; }
    hide Packet, Reading, Header;
    if PeerIds(f) {
      ReadAsSent(f, frame, flags, n);
    }
  }

  // ---- what the receiver reads ----

  datatype Heard = Heard(flags: byte, from: nat, dests: seq<nat>, frame: seq<byte>)

  /** receiver_recv_handler_send, up to what it does with the frame; `frameMtu` is the device's */
  function Reading(packet: seq<byte>, frameMtu: nat): Option<Heard> {
    if |packet| < 5 then None
    else
      var from, n := U16(packet, 1), U16(packet, 3);
      if n == 0 then
        if |packet| - 5 > frameMtu then None else Some(Heard(packet[0], from, [], packet[5..]))
      else if n != 1 || |packet| < OVERHEAD || |packet| - OVERHEAD > frameMtu then None
      else Some(Heard(packet[0], from, [U16(packet, 5)], packet[OVERHEAD..]))
  }

  ghost predicate PeerIds(f: Flow) { f.from < 0x1_0000 && f.to < 0x1_0000 }

  /** Whatever its flags, a flow's packet is read as the frame, from the flow's source to its one destination. */
  lemma ReadAsSent(f: Flow, frame: seq<byte>, flags: byte, frameMtu: nat)
    requires PeerIds(f) && |frame| <= frameMtu
    ensures Reading([flags] + Packet(f, frame), frameMtu) == Some(Heard(flags, f.from, [f.to], frame))
  {
    var p := [flags] + Packet(f, frame);
    Pow256Values();
    FromToLE(f.from, 2);
    FromToLE(1, 2);
    FromToLE(f.to, 2);
    hide ToLE;
    assert p[1..3] == ToLE(f.from, 2) && p[3..5] == ToLE(1, 2) && p[5..7] == ToLE(f.to, 2) && p[OVERHEAD..] == frame;
    U16IsLE(p, 1);
    U16IsLE(p, 3);
    U16IsLE(p, 5);
  }

  /** The same of a packet that has been queued. */
  lemma Delivered(q: Queue, f: Flow, frame: seq<byte>, frameMtu: nat)
    requires |frame| <= frameMtu
    ensures
      var q' := Put(q, Packet(f, frame));
      q.room > 0 ==>
        && |q'.packets| == |q.packets| + 1
        && (PeerIds(f) ==>
              forall flags: byte {:trigger [flags]} ::
                Reading([flags] + q'.packets[|q'.packets| - 1], frameMtu) == Some(Heard(flags, f.from, [f.to], frame)))
  {
    hide Packet, Reading;
    if PeerIds(f) {
      forall flags: byte {:trigger [flags]}
        ensures Reading([flags] + Packet(f, frame), frameMtu) == Some(Heard(flags, f.from, [f.to], frame))
      {
        ReadAsSent(f, frame, flags, frameMtu);
      }
    }
  }

  /** DataProtoSource with its packet router, and the route buffers of all flows */
  class Router {
    const mtu: nat
    const size: nat
    var mem: Memory
    var buffers: Buffers
    /** current_packet */
    var current: Ptr
    /** current_buf is not NULL: it is then the current packet */
    var open: bool
    var recvLen: nat

    ghost predicate Valid()
      reads this
    {
      OVERHEAD + recvLen <= mtu && Apart(mem, buffers, current, mtu, size)
    }

    ghost function Queued(): Queues
      requires Valid()
      reads this
    {
      Values(mem, buffers, mtu, size)
    }

    ghost function Packets(): set<Ptr>
      reads this
    {
      AllPackets(current, Holdings(buffers))
    }

    /** The frame behind current_buf */
    ghost function Frame(): seq<byte>
      requires Valid()
      reads this
    {
      mem[current][OVERHEAD..OVERHEAD + recvLen]
    }

    /** DataProtoSource_Init, with the packet malloc has given at `p` */
    constructor (frameMtu: nat, size: nat, p: Ptr, packet: seq<byte>)
      requires |packet| == OVERHEAD + frameMtu
      ensures Valid() && Queued() == map[] && Packets() == {p}
    {
      mtu, this.size := OVERHEAD + frameMtu, size;
      mem, buffers, current := map[p := packet], map[], p;
      open, recvLen := false, 0;
    }

    /** RouteBuffer_Init, with the packets malloc has given at `ps` */
    method AddBuffer(b: nat, ps: seq<Ptr>, packet: seq<byte>)
      requires Valid() && b !in buffers && |ps| == size && |packet| == mtu
      requires forall i :: 0 <= i < |ps| ==> ps[i] !in mem && ps[i] !in ps[..i]
      modifies this`mem, this`buffers
      ensures Valid() && Queued() == old(Queued())[b := Queue([], size)]
    {
      hide Separate, BuffersOk, Values;
      for i := 0 to |ps|
        invariant Valid() && Queued() == old(Queued()) && buffers == old(buffers)
        invariant forall k :: 0 <= k < i ==> Stored(mem, ps[k], mtu)
        invariant forall k :: i <= k < |ps| ==> ps[k] !in mem
      {
        WriteUnseen(mem, buffers, current, mtu, size, ps[i], packet);
        mem := mem[ps[i] := packet];
      }
      NewBuffer(old(mem), mem, buffers, current, mtu, size, b, ps);
      buffers := buffers[b := Buffer([], ps)];
    }

    /** input_handler_done of the router, and source_router_handler: a frame has been received */
    method Receive(frame: seq<byte>)
      requires Valid() && OVERHEAD + |frame| <= mtu
      modifies this`mem, this`open, this`recvLen
      ensures Valid() && Frame() == frame && open && Queued() == old(Queued())
    {
      hide Separate, BuffersOk, Values;
      WriteUnseen(mem, buffers, current, mtu, size, current, Splice(mem[current], OVERHEAD, frame));
      mem := mem[current := Splice(mem[current], OVERHEAD, frame)];
      open, recvLen := true, |frame|;
    }

    /** RouteBufferSource_Route */
    method RoutePacket(len: nat, b: nat, copyOffset: nat, copyLen: nat) returns (ok: bool, send: bool)
      requires Valid() && b in buffers
      requires FLAGS <= len <= mtu && copyOffset + copyLen <= mtu
      modifies this`mem, this`buffers, this`current
      ensures Valid() && Packets() == old(Packets())
      ensures ok == (old(buffers[b].free) != []) && send == (ok && old(buffers[b].used) == [])
      ensures Queued() == old(Queued())[b := Put(old(Queued()[b]), old(mem[current][FLAGS..len]))]
      ensures mem[current][copyOffset..copyOffset + copyLen] == old(mem[current][copyOffset..copyOffset + copyLen])
      ensures !ok ==> mem == old(mem) && buffers == old(buffers) && current == old(current)
    {
      hide AllPackets, Holdings, Separate, Contents, Distinct;
      if buffers[b].free == [] {
        return false, false;
      }
      ExchangeApart(mem, buffers, current, mtu, size, b, len);
      ok, send := true, buffers[b].used == [];
      var p := current;
      var np := buffers[b].free[|buffers[b].free| - 1];
      buffers, current := buffers[b := Exchange(buffers[b], p, len)], np;
      if copyLen > 0 {
        var copy := mem[p][copyOffset..copyOffset + copyLen];
        WriteUnseen(mem, buffers, np, mtu, size, np, Splice(mem[np], copyOffset, copy));
        mem := mem[np := Splice(mem[np], copyOffset, copy)];
      }
    }

    /** DataProtoFlow_Route.  The flags byte is whatever it happens to be. */
    method Route(f: Flow, more: bool)
      requires Valid() && f.b in buffers && open
      modifies this`mem, this`buffers, this`current, this`open
      ensures Valid() && Packets() == old(Packets())
      ensures Queued() == old(Queued())[f.b := Put(old(Queued()[f.b]), Packet(f, old(Frame())))]
      ensures open == (more || old(buffers[f.b].free) == [])
      ensures open ==> Frame() == old(Frame())
      ensures old(buffers[f.b].free) != [] ==> |Queued()[f.b].packets| == |old(Queued()[f.b].packets)| + 1
      ensures old(buffers[f.b].free) != [] && PeerIds(f) ==>
        forall flags: byte {:trigger [flags]} ::
          Reading([flags] + Queued()[f.b].packets[|Queued()[f.b].packets| - 1], mtu - OVERHEAD)
          == Some(Heard(flags, f.from, [f.to], old(Frame())))
    {
      hide AllPackets, Holdings, Separate, BuffersOk, Values, Put, Packet, Header, Splice;
      RoomIs(mem, buffers, mtu, size, f.b);
      var flags: byte := *;
      var packet := Splice(mem[current], 0, Header(f, flags));
      Addressed(mem[current], f, flags, recvLen);
      WriteUnseen(mem, buffers, current, mtu, size, current, packet);
      mem := mem[current := packet];
      var ok, send := RoutePacket(OVERHEAD + recvLen, f.b, OVERHEAD, if more then recvLen else 0);
      if ok {
        open := more;
      }
      Delivered(old(Queued()[f.b]), f, old(Frame()), mtu - OVERHEAD);
    }

    /**
     * The loop of device_dpsource_handler: every buffer ends up as if the frame
     * had been copied to each destination in turn.
     */
    method Forward(dests: seq<Flow>)
      requires Valid() && open && forall f :: f in dests ==> f.b in buffers
      modifies this`mem, this`buffers, this`current, this`open
      ensures Valid() && Packets() == old(Packets())
      ensures Queued() == CopyAll(old(Queued()), dests, old(Frame()))
    {
      hide Apart, Put, Packet, Values;
      for i := 0 to |dests|
        invariant Valid() && Packets() == old(Packets())
        invariant Queued() == CopyAll(old(Queued()), dests[..i], old(Frame()))
        invariant i < |dests| ==> open && Frame() == old(Frame())
      {
        assert dests[..i + 1][..i] == dests[..i];
        Route(dests[i], i + 1 < |dests|);
      }
      assert dests[..|dests|] == dests;
    }

    /** The bytes of the packet about to go out. */
    ghost function Outgoing(b: nat): seq<byte>
      requires Valid() && b in buffers && buffers[b].used != []
      reads this
    {
      FirstIs(mem, buffers, mtu, size, b);
      mem[buffers[b].used[0].p][..buffers[b].used[0].len]
    }

    /** notifier_handler: the flags of the packet about to go out */
    method SetFlags(b: nat, flags: byte)
      requires Valid() && b in buffers && buffers[b].used != []
      modifies this`mem
      ensures Valid() && Queued() == old(Queued())
      ensures Queued()[b].packets != [] && Outgoing(b) == [flags] + Queued()[b].packets[0]
    {
      FirstIs(mem, buffers, mtu, size, b);
      hide Separate, Contents, Distinct;
      assert BufferOk(mem, buffers[b], mtu, size) && SlotOk(mem, buffers[b].used[0], mtu);
      var p := buffers[b].used[0].p;
      var packet := Splice(mem[p], 0, [flags]);
      WriteUnseen(mem, buffers, current, mtu, size, p, packet);
      mem := mem[p := packet];
      FirstIs(mem, buffers, mtu, size, b);
    }

    /** output_handler_done of RouteBuffer: the first packet has been sent and is free again */
    method OutputDone(b: nat)
      requires Valid() && b in buffers && buffers[b].used != []
      modifies this`buffers
      ensures Valid() && Packets() == old(Packets())
      ensures var q := old(Queued()[b]);
              Queued() == old(Queued())[b := Queue(q.packets[1..], q.room + 1)]
    {
      hide Distinct, Contents, Separate, AllPackets, Owned;
      var buffer := buffers[b];
      DoneOk(mem, buffer, mtu, size);
      buffers := buffers[b := Buffer(buffer.used[1..], buffer.free + [buffer.used[0].p])];
      assert Holdings(buffers) == old(Holdings(buffers));
    }
  }

  lemma DoneOk(mem: Memory, b: Buffer, mtu: nat, size: nat)
    requires BufferOk(mem, b, mtu, size) && b.used != []
    ensures
      var b' := Buffer(b.used[1..], b.free + [b.used[0].p]);
      && BufferOk(mem, b', mtu, size) && Owned(b') == Owned(b)
      && Value(mem, b', mtu, size) == Queue(Value(mem, b, mtu, size).packets[1..], |b.free| + 1)
  {
    ContentsTail(mem, b.used);
    DoneDistinct(b);
    DoneStored(mem, b, mtu);
    hide Contents, Distinct, Owned;
    var c := Contents(mem, b.used);
    assert c[1..] == Contents(mem, b.used[1..]);
  }

  lemma DoneStored(mem: Memory, b: Buffer, mtu: nat)
    requires b.used != [] && (forall s :: s in b.used ==> SlotOk(mem, s, mtu)) && forall p :: p in b.free ==> Stored(mem, p, mtu)
    ensures forall s :: s in b.used[1..] ==> SlotOk(mem, s, mtu)
    ensures forall p :: p in b.free + [b.used[0].p] ==> Stored(mem, p, mtu)
  {
    assert SlotOk(mem, b.used[0], mtu);
  }

  lemma DoneDistinct(b: Buffer)
    requires Distinct(b) && b.used != []
    ensures
      var b' := Buffer(b.used[1..], b.free + [b.used[0].p]);
      Distinct(b') && Owned(b') == Owned(b)
  {
    var b' := Buffer(b.used[1..], b.free + [b.used[0].p]);
    assert b.used == [b.used[0]] + b'.used;
    assert forall s :: s in b.used <==> s == b.used[0] || s in b'.used;
    assert forall s :: s in b'.used ==> s.p != b.used[0].p;
    assert forall p :: p in b'.free <==> p in b.free || p == b.used[0].p;
  }
}
