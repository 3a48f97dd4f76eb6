/**
 * The assembler and disassembler objects, handler by handler.
 */
module FragmentProto {
  import opened Bytes
  import opened FragmentModel
  import opened FragmentRefinement
  import opened FragmentDisassembler

  class FrameAssembler {
    const outputMtu: nat
    const numChunks: nat
    const tolerance: nat
    var time: nat
    var used: seq<Frame>
    var free: seq<Frame>
    var input: seq<byte>
    var inPos: nat
    var haveInput: bool

    ghost function State(): Assembler
      reads this
    {
      Assembler(outputMtu, numChunks, tolerance, time, used, free)
    }

    ghost predicate Valid()
      reads this
    {
      Inv(State()) && inPos <= |input|
    }

    /** FragmentProtoAssembler_Init, with entries whose buffers hold anything */
    constructor (outputMtu: nat, numChunks: nat, entries: seq<Frame>)
      requires 0 < |entries| < MAX_CLOCK && 0 < numChunks
      requires forall i :: 0 <= i < |entries| ==> |entries[i].buffer| == outputMtu
      ensures Valid() && State() == Assembler(outputMtu, numChunks, |entries|, 0, [], entries) && !haveInput
    {
      this.outputMtu, this.numChunks, tolerance := outputMtu, numChunks, |entries|;
      time, used, free, input, inPos, haveInput := 0, [], entries, [], 0, false;
    }

    method FreeFrame(k: nat)
      requires k < |used|
      modifies this`used, this`free
      ensures State() == FreeAt(old(State()), k)
    {
      used, free := used[..k] + used[k + 1..], free + [used[k]];
    }

    method AllocateFrame(id: nat)
      requires used + free != []
      modifies this`used, this`free
      ensures State() == Allocate(old(State()), id)
    {
      if free == [] {
        FreeFrame(0);
      }
      var entry := free[0];
      free := free[1..];
      used := used + [Frame(id, time, [], 0, -1, 0, entry.buffer)];
    }

    /** process_chunk */
    method ProcessOneChunk(c: Chunk) returns (out: Option<seq<byte>>)
      requires Shape(State())
      modifies this`used, this`free
      ensures (State(), out) == ProcessChunk(old(State()), c)
    {
      if c.start > outputMtu || |c.data| > outputMtu - c.start {
        return None;
      }
      ObtainFinds(State(), c.id);
      var k := Find(used, c.id);
      if k == |used| {
        AllocateFrame(c.id);
      } else if time - used[k].time > tolerance {
        FreeFrame(k);
        AllocateFrame(c.id);
      }
      k := Find(used, c.id);
      out := AddToFrame(k, c);
    }

    method AddToFrame(k: nat, c: Chunk) returns (out: Option<seq<byte>>)
      requires k < |used| && End(c) <= |used[k].buffer| && used[k].length <= |used[k].buffer|
      modifies this`used, this`free
      ensures (State(), out) == AddChunk(old(State()), k, c)
    {
      var f := used[k];
      var clash := false;
      for i := 0 to |f.chunks|
        invariant clash <==> exists j :: 0 <= j < i && Overlap(f.chunks[j].start, f.chunks[j].len, c.start, |c.data|)
      {
        if Overlap(f.chunks[i].start, f.chunks[i].len, c.start, |c.data|) {
          clash := true;
        }
      }
      if c.last {
        clash := clash || f.length >= 0 || f.lengthSoFar > End(c);
      } else {
        clash := clash || (f.length >= 0 && End(c) > f.length);
      }
      assert clash <==> Clash(f, c);
      if clash {
        FreeFrame(k);
        return None;
      }
      f := f.(time := time, chunks := f.chunks + [Span(c.start, |c.data|)], sum := f.sum + |c.data|);
      if c.last {
        f := f.(length := End(c));
      } else if f.length < 0 && f.lengthSoFar < End(c) {
        f := f.(lengthSoFar := End(c));
      }
      f := f.(buffer := Overwrite(f.buffer, c.start, c.data));
      assert f == Accept(used[k], c, time);
      used := used[k := f];
      if f.length < 0 || f.sum < f.length {
        if |f.chunks| == numChunks {
          FreeFrame(k);
        }
        return None;
      }
      FreeFrame(k);
      out := Some(f.buffer[..f.length]);
    }

    /** The first loop of reduce_times: frees timed-out frames and finds the least time of the others. */
    method FreeTimedOut() returns (minTime: nat)
      modifies this`used, this`free
      ensures used == Live(old(State()), old(used)) && free == old(free) + Expired(old(State()), old(used))
      ensures used != [] ==> minTime == MinTime(used)
    {
      ghost var a := State();
      var live: seq<Frame> := [];
      minTime := 0;
      for i := 0 to |used|
        invariant used == a.used
        invariant live == Live(a, used[..i]) && free == a.free + Expired(a, used[..i])
        invariant live != [] ==> minTime == MinTime(live)
      {
        LiveSnoc(a, used[..i], used[i]);
        ExpiredSnoc(a, used[..i], used[i]);
        assert used[..i + 1] == used[..i] + [used[i]];
        hide Live, Expired, MinTime;
        if time - used[i].time > tolerance {
          free := free + [used[i]];
        } else {
          MinSnoc(live, used[i]);
          minTime := if live == [] || used[i].time < minTime then used[i].time else minTime;
          live := live + [used[i]];
        }
      }
      assert used[..|used|] == used;
      used := live;
    }

    /** The second loop of reduce_times. */
    method SubtractFromAll(minTime: nat)
      requires forall i :: 0 <= i < |used| ==> minTime <= used[i].time
      modifies this`used
      ensures used == Earlier(old(used), minTime)
    {
      for i := 0 to |used|
        invariant |used| == |old(used)|
        invariant forall k :: 0 <= k < i ==> used[k] == old(used)[k].(time := old(used)[k].time - minTime)
        invariant forall k :: i <= k < |used| ==> used[k] == old(used)[k]
      {
        used := used[i := used[i].(time := used[i].time - minTime)];
      }
    }

    /** reduce_times */
    method Reduce()
      requires Feasible(State())
      modifies this`used, this`free, this`time
      ensures State() == ReduceTimes(old(State()))
    {
      hide Live, Expired, Earlier;
      LiveTimes(State(), used);
      var minTime := FreeTimedOut();
      if used == [] {
        time := 0;
        return;
      }
      SubtractFromAll(minTime);
      time := time - minTime;
    }

    /** process_input: runs to the next delivered frame, or to the end of the input packet */
    method ProcessInput() returns (out: Option<seq<byte>>)
      requires Valid() && haveInput
      modifies this`used, this`free, this`time, this`inPos, this`haveInput
      ensures Valid() && haveInput == out.Some?
      ensures out.Some? ==> Delivers(old(State()), input[old(inPos)..], out.value, State(), input[inPos..])
      ensures out.None? ==> Exhausts(old(State()), input[old(inPos)..], State())
    {
      hide Inv, Feed, Parse, ParseOne, ProcessChunk, Tick, Shape;
      ghost var start, rest := State(), input[inPos..];
      while inPos < |input|
        invariant Valid() && haveInput
        invariant Feed(start, Parse(rest)) == Feed(State(), Parse(input[inPos..]))
      {
        var next := ParseOne(input[inPos..]);
        if next.None? {
          break;
        }
        FeedFirst(State(), input[inPos..]);
        out := ProcessOneChunk(next.value);
        assert input[inPos..][HEADER + |next.value.data|..] == input[inPos + HEADER + |next.value.data|..];
        inPos := inPos + HEADER + |next.value.data|;
        if out.Some? {
          return;
        }
      }
      NothingLeft(State(), input[inPos..]);
      EndPacket();
      out := None;
    }

    method EndPacket()
      requires Feasible(State())
      modifies this`used, this`free, this`time, this`haveInput
      ensures State() == Tick(old(State())) && !haveInput
    {
      if time == MAX_CLOCK {
        Reduce();
        if used != [] {
          time := time + 1;
        }
      } else {
        time := time + 1;
      }
      haveInput := false;
    }

    /** input_handler_send */
    method InputSend(data: seq<byte>) returns (out: Option<seq<byte>>)
      requires Valid() && !haveInput
      modifies this
      ensures Valid() && input == data && haveInput == out.Some?
      ensures out.Some? ==> Delivers(old(State()), data, out.value, State(), input[inPos..])
      ensures out.None? ==> Exhausts(old(State()), data, State())
    {
      input, inPos, haveInput := data, 0, true;
      assert data[0..] == data;
      out := ProcessInput();
    }
  }

  class FrameDisassembler {
    const outputMtu: nat
    const chunkMtu: int
    const latency: int
    var frameId: nat
    var input: Option<seq<byte>>
    var inUsed: nat
    var out: Option<seq<byte>>
    var timer: bool

    ghost function State(): Disassembler
      reads this
    {
      Disassembler(outputMtu, chunkMtu, latency, frameId, input, inUsed, out, timer)
    }

    /** FragmentProtoDisassembler_Init */
    constructor (outputMtu: nat, chunkMtu: int, latency: int)
      requires HEADER < outputMtu && chunkMtu != 0
      ensures Ready(State()) && State() == Disassembler(outputMtu, chunkMtu, latency, 0, None, 0, None, false)
    {
      this.outputMtu, this.chunkMtu, this.latency := outputMtu, chunkMtu, latency;
      frameId, input, inUsed, out, timer := 0, None, 0, None, false;
    }

    /** The loop of write_chunks: `start` bytes of `data` are done, `part` is the output packet so far. */
    method AppendChunks(data: seq<byte>, start: nat, part: seq<byte>) returns (bytes: seq<byte>, used: nat)
      requires chunkMtu != 0 && |part| + HEADER < outputMtu && (start < |data| || start == |data| == 0)
      ensures
        var cs := Cut(State(), data, start, |part|);
        bytes == part + EncodeAll(cs) && used == End(cs[|cs| - 1])
    {
      hide Encode, EncodeAll, Cut, ChunkLen;
      ghost var d := State();
      var more := true;
      bytes, used := part, start;
      ghost var done: seq<Chunk> := [];
      assert EncodeAll(done) == [] by { EncodeNone(); }
      while more
        invariant more ==> |bytes| + HEADER < outputMtu && (used < |data| || used == |data| == 0)
        invariant Cut(d, data, start, |part|) == if more then done + Cut(d, data, used, |bytes|) else done
        invariant bytes == part + EncodeAll(done)
        invariant done != [] ==> used == End(done[|done| - 1])
        invariant !more ==> done != []
        decreases more, |data| - used
      {
        var n := ChunkLen(|data| - used, outputMtu - |bytes| - HEADER, chunkMtu);
        CutStep(d, data, used, |bytes|);
        var c := Chunk(frameId, used, data[used..used + n], n == |data| - used);
        EncodeSnoc(done, c);
        Assoc(part, EncodeAll(done), Encode(c));
        bytes := bytes + Encode(c);
        used := used + n;
        more := used < |data| && outputMtu - |bytes| - HEADER > 0;
        if more {
          Assoc(done, [c], Cut(d, data, used, |bytes|));
        }
        done := done + [c];
      }
    }

    /** write_chunks */
    method Write(data: seq<byte>, start: nat, part: seq<byte>) returns (packet: Option<seq<byte>>)
      requires chunkMtu != 0 && |part| + HEADER < outputMtu && (start < |data| || start == |data| == 0)
      modifies this
      ensures (State(), packet) == WriteChunks(old(State()), data, start, part)
    {
      hide Cut, EncodeAll;
      var bytes, used := AppendChunks(data, start, part);
      inUsed := used;
      if used == |data| {
        input := None;
        frameId := (frameId + 1) % 0x1_0000;
      } else {
        input := Some(data);
      }
      if outputMtu - |bytes| - HEADER <= 0 || latency < 0 {
        out, timer := None, false;
        packet := Some(bytes);
      } else {
        out, timer := Some(bytes), true;
        packet := None;
      }
    }

    /** input_handler_send */
    method SendInput(data: seq<byte>) returns (packet: Option<seq<byte>>)
      requires Ready(State()) && Enabled(State(), Event.InputSend(data))
      modifies this
      ensures Ready(State()) && (State(), packet) == Step(old(State()), Event.InputSend(data))
    {
      StepKeepsReady(State(), Event.InputSend(data));
      hide WriteChunks;
      if out.None? {
        input, inUsed := Some(data), 0;
        return None;
      }
      packet := Write(data, 0, out.value);
    }

    /** output_handler_recv */
    method RecvOutput() returns (packet: Option<seq<byte>>)
      requires Ready(State()) && Enabled(State(), Event.OutputRecv)
      modifies this
      ensures Ready(State()) && (State(), packet) == Step(old(State()), Event.OutputRecv)
    {
      StepKeepsReady(State(), Event.OutputRecv);
      hide WriteChunks;
      if input.None? {
        out := Some([]);
        return None;
      }
      packet := Write(input.value, inUsed, []);
    }

    /** timer_handler */
    method TimerExpired() returns (packet: Option<seq<byte>>)
      requires Ready(State()) && Enabled(State(), Event.Timer)
      modifies this
      ensures Ready(State()) && (State(), packet) == Step(old(State()), Event.Timer)
    {
      packet := out;
      out, timer := None, false;
    }
  }

  lemma EncodeNone()
    ensures EncodeAll([]) == []
  {
  }

  lemma {:induction false} EncodeSnoc(cs: seq<Chunk>, c: Chunk)
    ensures EncodeAll(cs + [c]) == EncodeAll(cs) + Encode(c)
  {
    hide Encode;
    if cs == [] {
      assert [c][1..] == [] && [] + [c] == [c];
      assert EncodeAll([c]) == Encode(c) + EncodeAll([]);
    } else {
      EncodeSnoc(cs[1..], c);
      assert (cs + [c])[1..] == cs[1..] + [c];
    }
  }

  /** Feeding the packet `b` to `a` delivers `out` first, and then goes on as `b'` from `a'`. */
  ghost predicate Delivers(a: Assembler, b: seq<byte>, out: seq<byte>, a': Assembler, b': seq<byte>)
    requires Inv(a) && Inv(a')
  {
    Feed(a, Parse(b)) == (Feed(a', Parse(b')).0, [out] + Feed(a', Parse(b')).1)
  }

  /** Feeding the packet `b` to `a` delivers nothing, and the clock then moves to `a'`. */
  ghost predicate Exhausts(a: Assembler, b: seq<byte>, a': Assembler)
    requires Inv(a)
  {
    Feed(a, Parse(b)).1 == [] && Feasible(Feed(a, Parse(b)).0) && a' == Tick(Feed(a, Parse(b)).0)
  }

  ghost predicate Feasible(a: Assembler) {
    forall i :: 0 <= i < |a.used| ==> a.used[i].time <= a.time
  }

  lemma {:induction false} LiveSnoc(a: Assembler, used: seq<Frame>, f: Frame)
    ensures Live(a, used + [f]) == Live(a, used) + if TimedOut(a, f) then [] else [f]
  {
    hide TimedOut;
    if used == [] {
      assert used + [f] == [f] && [f][1..] == [];
    } else {
      LiveSnoc(a, used[1..], f);
      assert (used + [f])[1..] == used[1..] + [f];
    }
  }

  lemma {:induction false} ExpiredSnoc(a: Assembler, used: seq<Frame>, f: Frame)
    ensures Expired(a, used + [f]) == Expired(a, used) + if TimedOut(a, f) then [f] else []
  {
    hide TimedOut;
    if used == [] {
      assert used + [f] == [f] && [f][1..] == [];
    } else {
      ExpiredSnoc(a, used[1..], f);
      assert (used + [f])[1..] == used[1..] + [f];
    }
  }

  lemma {:induction false} MinSnoc(s: seq<Frame>, f: Frame)
    ensures MinTime(s + [f]) == if s == [] || f.time < MinTime(s) then f.time else MinTime(s)
  {
    if s != [] {
      MinSnoc(s[1..], f);
      assert (s + [f])[1..] == s[1..] + [f];
    } else {
      assert s + [f] == [f];
    }
  }

  lemma FeedFirst(a: Assembler, b: seq<byte>)
    requires Inv(a) && ParseOne(b).Some?
    ensures
      var c := ParseOne(b).value;
      var (a1, out) := ProcessChunk(a, c);
      && Shape(a) && Inv(a1)
      && var (a2, outs) := Feed(a1, Parse(b[HEADER + |c.data|..]));
         Feed(a, Parse(b)) == (a2, if out.Some? then [out.value] + outs else outs)
  {
    assert Shape(a);
    hide Inv, ProcessChunk, Shape;
    var c := ParseOne(b).value;
    ChunkKeepsInv(a, c);
    assert Parse(b)[0] == c && Parse(b)[1..] == Parse(b[HEADER + |c.data|..]);
  }

  lemma NothingLeft(a: Assembler, b: seq<byte>)
    requires Inv(a) && (b == [] || ParseOne(b).None?)
    ensures Feed(a, Parse(b)) == (a, []) && Feasible(a) && Inv(Tick(a))
  {
    TickKeepsInv(a);
    assert forall i :: 0 <= i < |a.used| ==> FrameInv(a, a.used[i]);
  }
}
