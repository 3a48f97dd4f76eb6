/**
 * FragmentProto: the chunk format, and the frame assembler as it works (running
 * sums, reused buffers, a 32-bit clock that is pulled back before it overflows).
 */
module FragmentModel {
  import opened Bytes
  import opened Lists

  /** sizeof(struct fragmentproto_chunk_header) */
  const HEADER: nat := 7
  /** FPA_MAX_TIME */
  const MAX_CLOCK: nat := 0xFFFF_FFFF

  datatype Chunk = Chunk(id: nat, start: nat, data: seq<byte>, last: bool)

  ghost predicate Fits(c: Chunk) {
    c.id < 0x1_0000 && c.start < 0x1_0000 && |c.data| < 0x1_0000
  }

  function End(c: Chunk): nat { c.start + |c.data| }

  function Encode(c: Chunk): (b: seq<byte>)
    ensures |b| == HEADER + |c.data|
  {
    ToLE(c.id, 2) + ToLE(c.start, 2) + ToLE(|c.data|, 2) + [if c.last then 1 else 0] + c.data
  }

  function EncodeAll(cs: seq<Chunk>): seq<byte> {
    if cs == [] then [] else Encode(cs[0]) + EncodeAll(cs[1..])
  }

  /** The first chunk of an input packet, if the packet starts with a whole one. */
  function ParseOne(b: seq<byte>): (c: Option<Chunk>)
    ensures c.Some? ==> HEADER + |c.value.data| <= |b|
  {
    if |b| < HEADER then None
    else
      var len := FromLE(b[4..6]);
      if b[6] > 1 || |b| - HEADER < len then None
      else Some(Chunk(FromLE(b[0..2]), FromLE(b[2..4]), b[HEADER..HEADER + len], b[6] == 1))
  }

  /** The chunks process_input takes from a packet: up to the first malformed one. */
  function Parse(b: seq<byte>): seq<Chunk>
    decreases |b|
  {
    match ParseOne(b)
    case None => []
    case Some(c) => [c] + Parse(b[HEADER + |c.data|..])
  }

  lemma ParseOneEncode(c: Chunk, rest: seq<byte>)
    requires Fits(c)
    ensures ParseOne(Encode(c) + rest) == Some(c)
    ensures (Encode(c) + rest)[HEADER + |c.data|..] == rest
  {
    Pow256Values();
    FromToLE(c.id, 2);
    FromToLE(c.start, 2);
    FromToLE(|c.data|, 2);
    var b := Encode(c) + rest;
    assert b[0..2] == ToLE(c.id, 2);
    assert b[2..4] == ToLE(c.start, 2);
    assert b[4..6] == ToLE(|c.data|, 2);
    assert b[HEADER..HEADER + |c.data|] == c.data;
  }

  /** The chunk header, byte by byte. */
  lemma ChunkLayout(c: Chunk)
    requires Fits(c)
    ensures
      var b := Encode(c);
      && U16(b, 0) == c.id && U16(b, 2) == c.start && U16(b, 4) == |c.data|
      && b[6] == (if c.last then 1 else 0) && b[HEADER..] == c.data
  {
    var b := Encode(c);
    ParseOneEncode(c, []);
    assert b + [] == b;
    U16IsLE(b, 0);
    U16IsLE(b, 2);
    U16IsLE(b, 4);
  }

  /** A chunk is taken from the front of a packet exactly if the packet begins with its encoding. */
  lemma ParsesExactly(b: seq<byte>, c: Chunk)
    ensures ParseOne(b) == Some(c) <==> Fits(c) && Encode(c) <= b
  {
    if ParseOne(b) == Some(c) {
      U16IsLE(b, 0);
      U16IsLE(b, 2);
      U16IsLE(b, 4);
      assert b[..HEADER + |c.data|] == b[0..2] + b[2..4] + b[4..6] + [b[6]] + c.data;
    }
    if Fits(c) && Encode(c) <= b {
      ParseOneEncode(c, b[|Encode(c)|..]);
      assert b == Encode(c) + b[|Encode(c)|..];
    }
  }

  /** What was written is what is read. */
  lemma {:induction false} ParseEncode(cs: seq<Chunk>)
    requires forall c :: c in cs ==> Fits(c)
    ensures Parse(EncodeAll(cs)) == cs
  {
    if cs != [] {
      ParseOneEncode(cs[0], EncodeAll(cs[1..]));
      ParseEncode(cs[1..]);
    }
  }

  // ---- the assembler's state ----

  datatype Span = Span(start: nat, len: nat)

  datatype Frame = Frame(
    id: nat,
    time: nat,
    chunks: seq<Span>,
    sum: nat,
    length: int,        // -1 while unknown
    lengthSoFar: nat,
    buffer: seq<byte>)

  datatype Assembler = Assembler(
    outputMtu: nat,
    numChunks: nat,
    tolerance: nat,     // also the number of frame entries
    time: nat,
    used: seq<Frame>,
    free: seq<Frame>)   // unused entries keep whatever their buffers held

  predicate Overlap(s1: nat, l1: nat, s2: nat, l2: nat) {
    s1 + l1 > s2 && s2 + l2 > s1
  }

  /** Where the entry with this id is in the used list; |used| if there is none. */
  function Find(used: seq<Frame>, id: nat): (k: nat)
    ensures k <= |used|
    ensures k < |used| ==> used[k].id == id
    ensures forall i :: 0 <= i < k ==> used[i].id != id
  {
    First(used, (f: Frame) => f.id == id)
  }

  function TimedOut(a: Assembler, f: Frame): bool {
    a.time - f.time > a.tolerance
  }

  function FreeAt(a: Assembler, k: nat): Assembler
    requires k < |a.used|
  {
    a.(used := a.used[..k] + a.used[k + 1..], free := a.free + [a.used[k]])
  }

  /** allocate_new_frame: with no free entry, the oldest used one is given up. */
  function Allocate(a: Assembler, id: nat): Assembler
    requires a.used + a.free != []
  {
    var a1 := if a.free == [] then FreeAt(a, 0) else a;
    a1.(used := a1.used + [Frame(id, a.time, [], 0, -1, 0, a1.free[0].buffer)], free := a1.free[1..])
  }

  function Obtain(a: Assembler, id: nat): Assembler
    requires a.used + a.free != []
  {
    var k := Find(a.used, id);
    if k == |a.used| then Allocate(a, id)
    else if TimedOut(a, a.used[k]) then Allocate(FreeAt(a, k), id)
    else a
  }

  predicate Clash(f: Frame, c: Chunk) {
    || (exists i :: 0 <= i < |f.chunks| && Overlap(f.chunks[i].start, f.chunks[i].len, c.start, |c.data|))
    || (c.last && (f.length >= 0 || f.lengthSoFar > End(c)))
    || (!c.last && f.length >= 0 && End(c) > f.length)
  }

  function Overwrite(buffer: seq<byte>, start: nat, data: seq<byte>): (r: seq<byte>)
    requires start + |data| <= |buffer|
    ensures |r| == |buffer|
    ensures r[start..start + |data|] == data
    ensures forall i :: 0 <= i < start || start + |data| <= i < |buffer| ==> r[i] == buffer[i]
  {
    buffer[..start] + data + buffer[start + |data|..]
  }

  function Accept(f: Frame, c: Chunk, now: nat): Frame
    requires End(c) <= |f.buffer|
  {
    f.(time := now,
       chunks := f.chunks + [Span(c.start, |c.data|)],
       sum := f.sum + |c.data|,
       length := if c.last then End(c) else f.length,
       lengthSoFar := if !c.last && f.length < 0 && f.lengthSoFar < End(c) then End(c) else f.lengthSoFar,
       buffer := Overwrite(f.buffer, c.start, c.data))
  }

  /** process_chunk from the overlap loop on, for the entry at position `k` */
  function AddChunk(a: Assembler, k: nat, c: Chunk): (Assembler, Option<seq<byte>>)
    requires k < |a.used| && End(c) <= |a.used[k].buffer| && a.used[k].length <= |a.used[k].buffer|
  {
    if Clash(a.used[k], c) then (FreeAt(a, k), None)
    else
      var f := Accept(a.used[k], c, a.time);
      var a1 := a.(used := a.used[k := f]);
      if f.length < 0 || f.sum < f.length then
        (if |f.chunks| == a.numChunks then FreeAt(a1, k) else a1, None)
      else (FreeAt(a1, k), Some(f.buffer[..f.length]))
  }

  /** The number of frame entries never changes, and each has a buffer of output_mtu bytes. */
  ghost predicate Shape(a: Assembler) {
    && 0 < a.tolerance == |a.used| + |a.free|
    && (forall i :: 0 <= i < |a.used| ==> |a.used[i].buffer| == a.outputMtu && a.used[i].length <= a.outputMtu)
    && (forall i :: 0 <= i < |a.free| ==> |a.free[i].buffer| == a.outputMtu)
  }

  lemma ObtainFinds(a: Assembler, id: nat)
    requires Shape(a)
    ensures
      var a1 := Obtain(a, id);
      var k := Find(a1.used, id);
      k < |a1.used| && |a1.used[k].buffer| == a.outputMtu && a1.used[k].length <= a.outputMtu
  {
    hide Allocate, FreeAt, TimedOut;
    var k := Find(a.used, id);
    if k == |a.used| {
      AllocateShape(a, id);
    } else if TimedOut(a, a.used[k]) {
      FreeShape(a, k);
      AllocateShape(FreeAt(a, k), id);
    }
  }

  lemma FreeShape(a: Assembler, k: nat)
    requires Shape(a) && k < |a.used|
    ensures Shape(FreeAt(a, k)) && FreeAt(a, k).outputMtu == a.outputMtu
  {
  }

  lemma AllocateShape(a: Assembler, id: nat)
    requires Shape(a)
    ensures
      var a' := Allocate(a, id);
      Shape(a') && a'.outputMtu == a.outputMtu && a'.used != [] && a'.used[|a'.used| - 1].id == id
  {
    if a.free == [] {
      FreeShape(a, 0);
    }
  }

  function ProcessChunk(a: Assembler, c: Chunk): (Assembler, Option<seq<byte>>)
    requires Shape(a)
  {
    if c.start > a.outputMtu || |c.data| > a.outputMtu - c.start then (a, None)
    else
      var a1 := Obtain(a, c.id);
      ObtainFinds(a, c.id);
      AddChunk(a1, Find(a1.used, c.id), c)
  }

  // ---- the clock ----

  /** The entries of the used list that have not timed out, in order. */
  function Live(a: Assembler, used: seq<Frame>): seq<Frame> {
    if used == [] then []
    else (if TimedOut(a, used[0]) then [] else [used[0]]) + Live(a, used[1..])
  }

  function Expired(a: Assembler, used: seq<Frame>): seq<Frame> {
    if used == [] then []
    else (if TimedOut(a, used[0]) then [used[0]] else []) + Expired(a, used[1..])
  }

  function MinTime(used: seq<Frame>): (t: nat)
    requires used != []
    ensures forall i :: 0 <= i < |used| ==> t <= used[i].time
    ensures exists i :: 0 <= i < |used| && t == used[i].time
  {
    if |used| == 1 then used[0].time
    else
      var t := MinTime(used[1..]);
      if used[0].time < t then used[0].time else t
  }

  function Earlier(used: seq<Frame>, t: nat): (r: seq<Frame>)
    requires forall i :: 0 <= i < |used| ==> t <= used[i].time
  {
    seq(|used|, i requires 0 <= i < |used| => used[i].(time := used[i].time - t))
  }

  /** reduce_times */
  function ReduceTimes(a: Assembler): Assembler
    requires forall i :: 0 <= i < |a.used| ==> a.used[i].time <= a.time
  {
    var live := Live(a, a.used);
    var a1 := a.(used := live, free := a.free + Expired(a, a.used));
    if live == [] then a1.(time := 0)
    else
      var t := MinTime(live);
      LiveTimes(a, a.used);
      a1.(used := Earlier(live, t), time := a.time - t)
  }

  lemma {:induction false} LiveTimes(a: Assembler, used: seq<Frame>)
    ensures forall i :: 0 <= i < |Live(a, used)| ==> Live(a, used)[i] in used && !TimedOut(a, Live(a, used)[i])
  {
    if used != [] {
      LiveTimes(a, used[1..]);
    }
  }

  /** The end of an input packet. */
  function Tick(a: Assembler): Assembler
    requires forall i :: 0 <= i < |a.used| ==> a.used[i].time <= a.time
  {
    if a.time == MAX_CLOCK then
      var a1 := ReduceTimes(a);
      if a1.used != [] then a1.(time := a1.time + 1) else a1
    else a.(time := a.time + 1)
  }
}
