/**
 * The frame disassembler: cuts input packets into chunks and packs the chunks
 * into output packets, holding a part-filled packet back for up to `latency`.
 */
module FragmentDisassembler {
  import opened Bytes
  import opened FragmentModel

  datatype Disassembler = Disassembler(
    outputMtu: nat,
    chunkMtu: int,                // negative: no limit
    latency: int,                 // negative: send each output packet at once
    frameId: nat,
    input: Option<seq<byte>>,
    inUsed: nat,
    out: Option<seq<byte>>,       // the part of the output packet written so far
    timer: bool)

  datatype Event = InputSend(data: seq<byte>) | OutputRecv | Timer

  function ChunkLen(left: nat, space: int, chunkMtu: int): int {
    var n := Min(left, space);
    if chunkMtu > 0 then Min(n, chunkMtu) else n
  }

  /** The chunks one call of write_chunks appends to an output packet of `outLen` bytes. */
  function Cut(d: Disassembler, data: seq<byte>, used: nat, outLen: nat): (cs: seq<Chunk>)
    requires d.chunkMtu != 0 && outLen + HEADER < d.outputMtu && (used < |data| || used == |data| == 0)
    ensures cs != []
    decreases |data| - used
  {
    var n := ChunkLen(|data| - used, d.outputMtu - outLen - HEADER, d.chunkMtu);
    var c := Chunk(d.frameId, used, data[used..used + n], n == |data| - used);
    if used + n < |data| && outLen + HEADER + n + HEADER < d.outputMtu
    then [c] + Cut(d, data, used + n, outLen + HEADER + n)
    else [c]
  }

  ghost predicate Ready(d: Disassembler) {
    && HEADER < d.outputMtu && d.chunkMtu != 0 && d.frameId < 0x1_0000
    && (d.input.Some? ==>
          && |d.input.value| < 0x1_0000 && d.out.None?
          && (d.inUsed == 0 || d.inUsed < |d.input.value|))
    && (d.out.Some? ==> |d.out.value| + HEADER < d.outputMtu && (|d.out.value| > 0 ==> d.latency >= 0))
    && (d.timer <==> d.out.Some? && |d.out.value| > 0)
  }

  /** write_chunks, for the pending input and an output packet holding `out` */
  function WriteChunks(d: Disassembler, data: seq<byte>, used: nat, out: seq<byte>): (Disassembler, Option<seq<byte>>)
    requires d.chunkMtu != 0 && |out| + HEADER < d.outputMtu && (used < |data| || used == |data| == 0)
  {
    var cs := Cut(d, data, used, |out|);
    var used' := End(cs[|cs| - 1]);
    var out' := out + EncodeAll(cs);
    var d1 := d.(inUsed := used',
                 input := if used' == |data| then None else Some(data),
                 frameId := if used' == |data| then (d.frameId + 1) % 0x1_0000 else d.frameId);
    if d.outputMtu - |out'| - HEADER <= 0 || d.latency < 0
    then (d1.(out := None, timer := false), Some(out'))
    else (d1.(out := Some(out'), timer := true), None)
  }

  ghost predicate Enabled(d: Disassembler, e: Event) {
    match e
    case InputSend(data) => d.input.None? && |data| < 0x1_0000
    case OutputRecv => d.out.None?
    case Timer => d.timer
  }

  /** One handler: the new state, and the output packet it finishes, if any. */
  function Step(d: Disassembler, e: Event): (Disassembler, Option<seq<byte>>)
    requires Ready(d) && Enabled(d, e)
  {
    match e
    case InputSend(data) =>
      if d.out.None? then (d.(input := Some(data), inUsed := 0), None)
      else WriteChunks(d, data, 0, d.out.value)
    case OutputRecv =>
      if d.input.None? then (d.(out := Some([])), None)
      else WriteChunks(d, d.input.value, d.inUsed, [])
    case Timer => (d.(out := None, timer := false), d.out)
  }

  /** The chunks of one call are consecutive pieces of the frame, and only the final piece is marked last. */
  ghost predicate Pieces(d: Disassembler, data: seq<byte>, used: nat, cs: seq<Chunk>)
    decreases |cs|
  {
    if cs == [] then true
    else
      && used <= End(cs[0]) <= |data| && cs[0].start == used && cs[0].id == d.frameId
      && cs[0].data == data[used..End(cs[0])]
      && (cs[0].last <==> End(cs[0]) == |data|)
      && (used < |data| ==> |cs[0].data| > 0)
      && (|cs| > 1 ==> !cs[0].last)
      && Pieces(d, data, End(cs[0]), cs[1..])
  }

  lemma {:induction false} CutPieces(d: Disassembler, data: seq<byte>, used: nat, outLen: nat)
    requires d.chunkMtu != 0 && outLen + HEADER < d.outputMtu && (used < |data| || used == |data| == 0)
    ensures Pieces(d, data, used, Cut(d, data, used, outLen))
    decreases |data| - used
  {
    var n := ChunkLen(|data| - used, d.outputMtu - outLen - HEADER, d.chunkMtu);
    var cs := Cut(d, data, used, outLen);
    if |cs| > 1 {
      CutPieces(d, data, used + n, outLen + HEADER + n);
      assert cs[1..] == Cut(d, data, used + n, outLen + HEADER + n);
    } else {
      assert cs[1..] == [];
    }
  }

  lemma CutStep(d: Disassembler, data: seq<byte>, used: nat, outLen: nat)
    requires d.chunkMtu != 0 && outLen + HEADER < d.outputMtu && (used < |data| || used == |data| == 0)
    ensures
      var n := ChunkLen(|data| - used, d.outputMtu - outLen - HEADER, d.chunkMtu);
      && 0 <= n <= |data| - used && n <= d.outputMtu - outLen - HEADER && (used < |data| ==> n > 0)
      && (d.chunkMtu < 0 && n < |data| - used ==> n == d.outputMtu - outLen - HEADER)
      && var c := Chunk(d.frameId, used, data[used..used + n], n == |data| - used);
         Cut(d, data, used, outLen) ==
           if used + n < |data| && outLen + HEADER + n + HEADER < d.outputMtu
           then [c] + Cut(d, data, used + n, outLen + HEADER + n) else [c]
  {
  }

  /** A call stops because the frame is finished or because no further chunk fits. */
  lemma {:induction false} CutSize(d: Disassembler, data: seq<byte>, used: nat, outLen: nat)
    requires d.chunkMtu != 0 && outLen + HEADER < d.outputMtu && (used < |data| || used == |data| == 0)
    ensures
      var cs := Cut(d, data, used, outLen);
      var end := End(cs[|cs| - 1]);
      && used <= end <= |data| && (used < |data| ==> used < end)
      && 0 < |EncodeAll(cs)| && outLen + |EncodeAll(cs)| <= d.outputMtu
      && (end == |data| || d.outputMtu - (outLen + |EncodeAll(cs)|) - HEADER <= 0)
    decreases |data| - used
  {
    hide Encode, Cut, ChunkLen;
    var n := ChunkLen(|data| - used, d.outputMtu - outLen - HEADER, d.chunkMtu);
    var cs := Cut(d, data, used, outLen);
    CutStep(d, data, used, outLen);
    assert EncodeAll(cs) == Encode(cs[0]) + EncodeAll(cs[1..]);
    if |cs| > 1 {
      CutSize(d, data, used + n, outLen + HEADER + n);
      assert cs[1..] == Cut(d, data, used + n, outLen + HEADER + n);
      assert cs[|cs| - 1] == cs[1..][|cs| - 2];
    } else {
      assert cs[1..] == [];
    }
  }

  /** No chunk is longer than the chunk MTU, if there is one. */
  lemma {:induction false} CutWithin(d: Disassembler, data: seq<byte>, used: nat, outLen: nat)
    requires d.chunkMtu != 0 && outLen + HEADER < d.outputMtu && (used < |data| || used == |data| == 0)
    ensures d.chunkMtu > 0 ==> forall c :: c in Cut(d, data, used, outLen) ==> |c.data| <= d.chunkMtu
    decreases |data| - used
  {
    var n := ChunkLen(|data| - used, d.outputMtu - outLen - HEADER, d.chunkMtu);
    if used + n < |data| && outLen + HEADER + n + HEADER < d.outputMtu {
      CutWithin(d, data, used + n, outLen + HEADER + n);
    }
  }

  /**
   * When a packet goes out: never before it has no room for another chunk,
   * unless no latency is allowed or the timer has expired; and a part-filled
   * packet is held only with the timer running.
   */
  lemma HeldBack(d: Disassembler, e: Event)
    requires Ready(d) && Enabled(d, e)
    ensures
      var (d', p) := Step(d, e);
      && (p.Some? ==> |p.value| + HEADER >= d.outputMtu || d.latency < 0 || e == Timer)
      && (p.None? && d'.out.Some? ==> |d'.out.value| + HEADER < d.outputMtu)
      && (p.None? && d'.out.Some? && d'.out.value != [] ==> d.latency >= 0 && d'.timer)
  {
    StepKeepsReady(d, e);
    hide Cut, EncodeAll;
  }

  /** Every handler keeps the state ready, and no output packet is longer than the output MTU. */
  lemma StepKeepsReady(d: Disassembler, e: Event)
    requires Ready(d) && Enabled(d, e)
    ensures Ready(Step(d, e).0)
    ensures Step(d, e).1.Some? ==> 0 < |Step(d, e).1.value| <= d.outputMtu
  {
    hide Cut, EncodeAll;
    match e
    case InputSend(data) => if d.out.Some? { CutSize(d, data, 0, |d.out.value|); }
    case OutputRecv => if d.input.Some? { CutSize(d, d.input.value, d.inUsed, 0); }
    case Timer =>
  }
}
