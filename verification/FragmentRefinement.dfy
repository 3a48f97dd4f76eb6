/**
 * The assembler refines the reference: same deliveries on every input, whatever
 * its reused buffers held before and whenever its clock is pulled back.
 */
module FragmentRefinement {
  import opened Bytes
  import opened FragmentModel
  import opened FragmentReference

  /** What holds of the chunks recorded for a frame. */
  ghost predicate FrameCore(f: Frame, mtu: nat) {
    && |f.buffer| == mtu && -1 <= f.length <= mtu && f.lengthSoFar <= mtu
    && Disjoint(f.chunks) && f.sum == Total(f.chunks)
    && (f.length >= 0 ==> Inside(f.chunks, f.length) && EndsAt(f.chunks, f.length))
    && (f.length < 0 ==> Inside(f.chunks, f.lengthSoFar))
    && (f.length < 0 && f.lengthSoFar > 0 ==> EndsAt(f.chunks, f.lengthSoFar))
  }

  ghost predicate EndsAt(s: seq<Span>, n: nat) {
    exists i :: 0 <= i < |s| && s[i].start + s[i].len == n
  }

  /** A frame between two chunks: it still misses something, has room, and is not from the future. */
  ghost predicate FrameInv(a: Assembler, f: Frame) {
    && FrameCore(f, a.outputMtu)
    && (f.length < 0 || f.sum < f.length)
    && |f.chunks| < a.numChunks
    && f.time <= a.time
  }

  ghost predicate Inv(a: Assembler) {
    && Shape(a) && 0 < a.numChunks && a.tolerance < MAX_CLOCK && a.time <= MAX_CLOCK
    && (forall i :: 0 <= i < |a.used| ==> FrameInv(a, a.used[i]))
    && (forall i, j :: 0 <= i < j < |a.used| ==> a.used[i].id != a.used[j].id)
  }

  /** A frame entry stands for the chunks of a reference frame; `d` is how far its clock is behind. */
  ghost predicate Same(f: Frame, g: RefFrame, d: nat) {
    && f.id == g.id && f.time + d == g.time && f.length == LastEnd(g.chunks)
    && |f.chunks| == |g.chunks|
    && (forall i :: 0 <= i < |g.chunks| ==> Holds(f, i, g.chunks[i]))
  }

  ghost predicate Holds(f: Frame, i: nat, c: Chunk) {
    && i < |f.chunks| && f.chunks[i] == Span(c.start, |c.data|)
    && End(c) <= |f.buffer| && f.buffer[c.start..End(c)] == c.data
  }

  ghost predicate Sim(a: Assembler, r: Ref, d: nat) {
    && Inv(a)
    && a.outputMtu == r.mtu && a.numChunks == r.numChunks && a.tolerance == r.numFrames && a.time + d == r.time
    && |a.used| == |r.frames|
    && (forall i :: 0 <= i < |a.used| ==> Same(a.used[i], r.frames[i], d))
  }

  // ---- one frame ----

  lemma ClashSame(f: Frame, g: RefFrame, d: nat, c: Chunk)
    requires FrameCore(f, |f.buffer|) && Same(f, g, d)
    ensures Clash(f, c) <==> RefClash(g.chunks, c)
  {
    assert forall i :: 0 <= i < |g.chunks| ==> Holds(f, i, g.chunks[i]);
    if f.length < 0 && f.lengthSoFar > End(c) {
      assert EndsAt(f.chunks, f.lengthSoFar);
      var i :| 0 <= i < |f.chunks| && f.chunks[i].start + f.chunks[i].len == f.lengthSoFar;
      assert Holds(f, i, g.chunks[i]) && End(g.chunks[i]) > End(c);
    }
    if exists i :: 0 <= i < |f.chunks| && Overlap(f.chunks[i].start, f.chunks[i].len, c.start, |c.data|) {
      var i :| 0 <= i < |f.chunks| && Overlap(f.chunks[i].start, f.chunks[i].len, c.start, |c.data|);
      assert Holds(f, i, g.chunks[i]);
    }
  }

  lemma AcceptKeepsCore(f: Frame, c: Chunk, now: nat)
    requires FrameCore(f, |f.buffer|) && !Clash(f, c) && End(c) <= |f.buffer|
    ensures FrameCore(Accept(f, c, now), |f.buffer|)
  {
    hide Disjoint, Total, Inside, EndsAt, Clash;
    AcceptDisjoint(f, c);
    TotalSnoc(f.chunks, Span(c.start, |c.data|));
    AcceptInside(f, c, now);
    AcceptEnds(f, c, now);
  }

  lemma AcceptDisjoint(f: Frame, c: Chunk)
    requires Disjoint(f.chunks) && !Clash(f, c)
    ensures Disjoint(f.chunks + [Span(c.start, |c.data|)])
  {
  }

  lemma TotalSnoc(s: seq<Span>, p: Span)
    ensures Total(s + [p]) == Total(s) + p.len
  {
    assert (s + [p])[..|s|] == s;
  }

  lemma AcceptInside(f: Frame, c: Chunk, now: nat)
    requires FrameCore(f, |f.buffer|) && !Clash(f, c) && End(c) <= |f.buffer|
    ensures var f' := Accept(f, c, now); Inside(f'.chunks, if f'.length >= 0 then f'.length else f'.lengthSoFar)
  {
    hide Disjoint, Total, EndsAt;
  }

  lemma AcceptEnds(f: Frame, c: Chunk, now: nat)
    requires FrameCore(f, |f.buffer|) && !Clash(f, c) && End(c) <= |f.buffer|
    ensures var f' := Accept(f, c, now);
            && (f'.length >= 0 ==> EndsAt(f'.chunks, f'.length))
            && (f'.length < 0 && f'.lengthSoFar > 0 ==> EndsAt(f'.chunks, f'.lengthSoFar))
  {
    hide Disjoint, Total, Inside, EndsAt;
    var p := Span(c.start, |c.data|);
    EndsAtSnoc(f.chunks, p, End(c));
    if f.length >= 0 {
      EndsAtSnoc(f.chunks, p, f.length);
    } else if f.lengthSoFar > 0 {
      EndsAtSnoc(f.chunks, p, f.lengthSoFar);
    }
  }

  lemma EndsAtSnoc(s: seq<Span>, p: Span, n: nat)
    requires EndsAt(s, n) || p.start + p.len == n
    ensures EndsAt(s + [p], n)
  {
    if EndsAt(s, n) {
      var i :| 0 <= i < |s| && s[i].start + s[i].len == n;
      assert (s + [p])[i] == s[i];
    } else {
      assert (s + [p])[|s|] == p;
    }
  }

  lemma AcceptHolds(f: Frame, g: RefFrame, d: nat, c: Chunk, now: nat, i: nat)
    requires FrameCore(f, |f.buffer|) && Same(f, g, d) && !Clash(f, c) && End(c) <= |f.buffer|
    requires i <= |g.chunks|
    ensures Holds(Accept(f, c, now), i, (g.chunks + [c])[i])
  {
    var f' := Accept(f, c, now);
    if i < |g.chunks| {
      assert Holds(f, i, g.chunks[i]);
      var e := g.chunks[i];
      assert !Overlap(f.chunks[i].start, f.chunks[i].len, c.start, |c.data|);
      forall x | e.start <= x < End(e) ensures f'.buffer[x] == f.buffer[x] {
        assert x < c.start || End(c) <= x;
      }
      assert f'.buffer[e.start..End(e)] == f.buffer[e.start..End(e)];
    }
  }

  lemma AcceptSame(f: Frame, g: RefFrame, d: nat, c: Chunk, now: nat)
    requires FrameCore(f, |f.buffer|) && Same(f, g, d) && !Clash(f, c) && End(c) <= |f.buffer| && c.id == f.id
    ensures Same(Accept(f, c, now), RefFrame(c.id, now + d, g.chunks + [c]), d)
  {
    var cs := g.chunks + [c];
    forall i | 0 <= i < |cs| ensures Holds(Accept(f, c, now), i, cs[i]) {
      AcceptHolds(f, g, d, c, now, i);
    }
    assert cs[..|g.chunks|] == g.chunks;
  }

  lemma CompleteSame(f: Frame, g: RefFrame, d: nat)
    requires FrameCore(f, |f.buffer|) && Same(f, g, d)
    ensures (f.length < 0 || f.sum < f.length) <==> !Complete(g.chunks)
    ensures f.length >= 0 ==> f.sum <= f.length
  {
    if f.length >= 0 {
      SumIsCoverage(f.chunks, f.length);
      forall x | 0 <= x < f.length ensures Spanned(f.chunks, x) <==> Covered(g.chunks, x) {
        forall i | 0 <= i < |g.chunks| ensures InSpan(f.chunks[i], x) <==> Covers(g.chunks[i], x) {
          assert Holds(f, i, g.chunks[i]);
        }
        if Covered(g.chunks, x) {
          var i :| 0 <= i < |g.chunks| && Covers(g.chunks[i], x);
          assert InSpan(f.chunks[i], x);
        }
      }
    }
  }

  /** Every delivered byte is the byte of the chunk that covers its position. */
  lemma DeliveredBytes(f: Frame, g: RefFrame, d: nat)
    requires FrameCore(f, |f.buffer|) && Same(f, g, d) && Complete(g.chunks)
    ensures f.buffer[..f.length] == Assemble(g.chunks)
  {
    hide FrameCore, ByteAt, Covered;
    forall x: nat | x < f.length ensures x < |f.buffer| && f.buffer[x] == Assemble(g.chunks)[x] {
      assert Covered(g.chunks, x);
      DeliveredByte(f, g, d, x);
    }
    assert f.length <= |f.buffer| by { LengthInBuffer(f); }
  }

  lemma LengthInBuffer(f: Frame)
    requires FrameCore(f, |f.buffer|)
    ensures f.length <= |f.buffer|
  {
  }

  lemma DeliveredByte(f: Frame, g: RefFrame, d: nat, x: nat)
    requires Same(f, g, d) && Covered(g.chunks, x)
    ensures x < |f.buffer| && f.buffer[x] == ByteAt(g.chunks, x)
  {
    forall i | 0 <= i < |g.chunks| && Covers(g.chunks[i], x)
      ensures x < |f.buffer| && f.buffer[x] == g.chunks[i].data[x - g.chunks[i].start]
    {
      assert Holds(f, i, g.chunks[i]);
      assert f.buffer[x] == f.buffer[g.chunks[i].start..End(g.chunks[i])][x - g.chunks[i].start];
    }
  }

  // ---- the whole assembler ----

  lemma FindSame(used: seq<Frame>, frames: seq<RefFrame>, id: nat)
    requires |used| == |frames| && forall i :: 0 <= i < |used| ==> used[i].id == frames[i].id
    ensures Find(used, id) == RefFind(frames, id)
  {
    var k, m := Find(used, id), RefFind(frames, id);
    assert k < |used| ==> used[k].id == frames[k].id;
    assert m < |used| ==> used[m].id == frames[m].id;
  }

  lemma SimFree(a: Assembler, r: Ref, d: nat, k: nat)
    requires Sim(a, r, d) && k < |a.used|
    ensures Sim(FreeAt(a, k), r.(frames := Drop(r.frames, k)), d)
  {
    hide FrameCore, Holds, LastEnd;
    var a', r' := FreeAt(a, k), r.(frames := Drop(r.frames, k));
    FreeShape(a, k);
    forall i | 0 <= i < |a'.used|
      ensures FrameInv(a', a'.used[i]) && Same(a'.used[i], r'.frames[i], d)
      ensures a'.used[i] == a.used[if i < k then i else i + 1]
    {
      var j := if i < k then i else i + 1;
      assert a'.used[i] == a.used[j] && r'.frames[i] == r.frames[j];
      assert FrameInv(a, a.used[j]);
    }
  }

  lemma SimAllocate(a: Assembler, r: Ref, d: nat, id: nat)
    requires Sim(a, r, d) && forall i :: 0 <= i < |a.used| ==> a.used[i].id != id
    ensures Sim(Allocate(a, id), RefAllocate(r, id), d)
  {
    hide EndsAt, Overlap;
    var a1 := if a.free == [] then FreeAt(a, 0) else a;
    var r1 := if |r.frames| >= r.numFrames then r.(frames := Drop(r.frames, 0)) else r;
    if a.free == [] {
      SimFree(a, r, d, 0);
    }
    assert Sim(a1, r1, d);
    var a', r' := Allocate(a, id), RefAllocate(r, id);
    forall i | 0 <= i < |a'.used|
      ensures FrameInv(a', a'.used[i]) && Same(a'.used[i], r'.frames[i], d)
    {
      if i < |a1.used| {
        assert a'.used[i] == a1.used[i] && r'.frames[i] == r1.frames[i];
        assert FrameInv(a1, a1.used[i]);
      }
    }
    assert Shape(a');
  }

  lemma SimObtain(a: Assembler, r: Ref, d: nat, id: nat)
    requires Sim(a, r, d)
    ensures Sim(Obtain(a, id), RefObtain(r, id), d)
    ensures Find(Obtain(a, id).used, id) == RefFind(RefObtain(r, id).frames, id)
  {
    SimHeads(a, r, d);
    FindSame(a.used, r.frames, id);
    hide Sim, TimedOut, Obtain, RefObtain;
    var k := Find(a.used, id);
    if k == |a.used| {
      SimObtainNew(a, r, d, id);
    } else if TimedOut(a, a.used[k]) {
      SimObtainOld(a, r, d, id, k);
    } else {
      ObtainSame(a, r, id, k);
    }
    SimHeads(Obtain(a, id), RefObtain(r, id), d);
    FindSame(Obtain(a, id).used, RefObtain(r, id).frames, id);
  }

  lemma SimObtainNew(a: Assembler, r: Ref, d: nat, id: nat)
    requires Sim(a, r, d) && Find(a.used, id) == |a.used| && RefFind(r.frames, id) == |r.frames|
    ensures Sim(Obtain(a, id), RefObtain(r, id), d)
  {
    SimHeads(a, r, d);
    SimAllocate(a, r, d, id);
    hide Sim, Allocate, RefAllocate, TimedOut;
    assert Obtain(a, id) == Allocate(a, id);
    assert RefObtain(r, id) == RefAllocate(r, id);
  }

  lemma SimObtainOld(a: Assembler, r: Ref, d: nat, id: nat, k: nat)
    requires Sim(a, r, d) && Find(a.used, id) == k == RefFind(r.frames, id) && k < |a.used| && TimedOut(a, a.used[k])
    ensures Sim(Obtain(a, id), RefObtain(r, id), d)
  {
    SimHeads(a, r, d);
    SimFree(a, r, d, k);
    var a1, r1 := FreeAt(a, k), r.(frames := Drop(r.frames, k));
    assert forall i :: 0 <= i < |a1.used| ==> a1.used[i].id != id by { OthersDiffer(a, k); }
    SimAllocate(a1, r1, d, id);
    SimHeads(a1, r1, d);
    hide Sim, Allocate, RefAllocate, FreeAt, Drop, TimedOut;
    assert Obtain(a, id) == Allocate(a1, id);
    assert RefObtain(r, id) == RefAllocate(r1, id);
  }

  lemma OthersDiffer(a: Assembler, k: nat)
    requires Inv(a) && k < |a.used|
    ensures forall i :: 0 <= i < |FreeAt(a, k).used| ==> FreeAt(a, k).used[i].id != a.used[k].id
  {
    hide FrameInv, Shape;
    var used := FreeAt(a, k).used;
    forall i | 0 <= i < |used| ensures used[i].id != a.used[k].id {
      assert used[i] == a.used[if i < k then i else i + 1];
    }
  }

  lemma ObtainSame(a: Assembler, r: Ref, id: nat, k: nat)
    requires a.used + a.free != [] && Find(a.used, id) == k == RefFind(r.frames, id) && k < |a.used| && k < |r.frames|
    requires !TimedOut(a, a.used[k]) && r.time - r.frames[k].time <= r.numFrames
    ensures Obtain(a, id) == a && RefObtain(r, id) == r
  {
  }

  /** What can be told of the frames without their chunks. */
  lemma SimHeads(a: Assembler, r: Ref, d: nat)
    requires Sim(a, r, d)
    ensures a.used + a.free != [] && |a.used| == |r.frames|
    ensures forall i :: 0 <= i < |a.used| ==> a.used[i].id == r.frames[i].id
    ensures forall i :: 0 <= i < |a.used| ==> (TimedOut(a, a.used[i]) <==> r.time - r.frames[i].time > r.numFrames)
  {
    forall i | 0 <= i < |a.used|
      ensures a.used[i].id == r.frames[i].id && a.used[i].time + d == r.frames[i].time
    {
      assert Same(a.used[i], r.frames[i], d);
    }
  }

  /** A frame that is freed right after an update leaves only its buffer behind. */
  lemma SimFreeUpdated(a: Assembler, r: Ref, d: nat, k: nat, f: Frame)
    requires Sim(a, r, d) && k < |a.used| && |f.buffer| == a.outputMtu
    ensures Sim(FreeAt(a.(used := a.used[k := f]), k), r.(frames := Drop(r.frames, k)), d)
  {
    SimFree(a, r, d, k);
    var a0, a1 := FreeAt(a, k), FreeAt(a.(used := a.used[k := f]), k);
    assert a0.used == a1.used;
    assert forall i :: 0 <= i < |a1.used| ==> FrameInv(a0, a0.used[i]) ==> FrameInv(a1, a1.used[i]);
  }

  lemma CoreShape(a: Assembler, f: Frame)
    requires FrameInv(a, f)
    ensures |f.buffer| == a.outputMtu && f.length <= a.outputMtu
  {
  }

  lemma SimUpdate(a: Assembler, r: Ref, d: nat, k: nat, f: Frame, g: RefFrame)
    requires Sim(a, r, d) && k < |a.used| && f.id == a.used[k].id
    requires FrameInv(a, f) && Same(f, g, d)
    ensures Sim(a.(used := a.used[k := f]), r.(frames := r.frames[k := g]), d)
  {
    hide FrameCore, Holds, LastEnd;
    var a', r' := a.(used := a.used[k := f]), r.(frames := r.frames[k := g]);
    forall i | 0 <= i < |a'.used|
      ensures FrameInv(a', a'.used[i]) && a'.used[i].id == a.used[i].id
    {
      assert FrameInv(a, a.used[i]);
    }
    forall i | 0 <= i < |a'.used|
      ensures Same(a'.used[i], r'.frames[i], d)
    {
      assert Same(a.used[i], r.frames[i], d);
    }
    CoreShape(a, f);
  }

  lemma SimAdd(a: Assembler, r: Ref, d: nat, k: nat, c: Chunk)
    requires Sim(a, r, d) && k < |a.used| && End(c) <= a.outputMtu && c.id == a.used[k].id
    ensures Sim(AddChunk(a, k, c).0, RefAdd(r, k, c).0, d)
    ensures AddChunk(a, k, c).1 == RefAdd(r, k, c).1
  {
    var f, g := a.used[k], r.frames[k];
    assert FrameInv(a, f) && Same(f, g, d);
    ClashSame(f, g, d, c);
    SimFree(a, r, d, k);
    if !Clash(f, c) {
      var f', g' := Accept(f, c, a.time), RefFrame(c.id, r.time, g.chunks + [c]);
      AcceptKeepsCore(f, c, a.time);
      AcceptSame(f, g, d, c, a.time);
      CompleteSame(f', g', d);
      SimFreeUpdated(a, r, d, k, f');
      if Complete(g'.chunks) {
        DeliveredBytes(f', g', d);
      } else if |f'.chunks| != a.numChunks {
        SimUpdate(a, r, d, k, f', g');
      }
    }
  }

  lemma SimChunk(a: Assembler, r: Ref, d: nat, c: Chunk)
    requires Sim(a, r, d)
    ensures Sim(ProcessChunk(a, c).0, RefChunk(r, c).0, d)
    ensures ProcessChunk(a, c).1 == RefChunk(r, c).1
  {
    if End(c) <= a.outputMtu {
      SimObtain(a, r, d, c.id);
      var a1, r1 := Obtain(a, c.id), RefObtain(r, c.id);
      SimAdd(a1, r1, d, Find(a1.used, c.id), c);
    }
  }

  /** Every state that keeps the invariant stands for some reference state. */
  ghost function Abstract(a: Assembler): Ref
    requires Inv(a)
  {
    Ref(a.outputMtu, a.numChunks, a.tolerance, a.time,
        seq(|a.used|, i requires 0 <= i < |a.used| => assert FrameInv(a, a.used[i]); AbstractFrame(a.used[i])))
  }

  ghost function AbstractFrame(f: Frame): RefFrame
    requires FrameCore(f, |f.buffer|)
  {
    RefFrame(f.id, f.time, seq(|f.chunks|, i requires 0 <= i < |f.chunks| =>
      var p := f.chunks[i];
      Chunk(f.id, p.start, f.buffer[p.start..p.start + p.len], p.start + p.len == f.length)))
  }

  lemma AbstractSame(f: Frame)
    requires FrameCore(f, |f.buffer|)
    ensures Same(f, AbstractFrame(f), 0)
  {
    hide Disjoint, Total, LastEnd;
    var g := AbstractFrame(f);
    forall i | 0 <= i < |g.chunks|
      ensures Holds(f, i, g.chunks[i]) && (g.chunks[i].last ==> End(g.chunks[i]) == f.length)
    {
    }
    LastEndIs(g.chunks, f.length);
    if f.length >= 0 {
      var i :| 0 <= i < |f.chunks| && f.chunks[i].start + f.chunks[i].len == f.length;
      assert g.chunks[i].last;
    } else {
      assert forall i :: 0 <= i < |g.chunks| ==> !g.chunks[i].last;
    }
  }

  lemma {:induction false} LastEndIs(cs: seq<Chunk>, n: int)
    requires forall i :: 0 <= i < |cs| && cs[i].last ==> End(cs[i]) == n
    ensures LastEnd(cs) == n || LastEnd(cs) == -1
  {
    if cs != [] && !cs[|cs| - 1].last {
      LastEndIs(cs[..|cs| - 1], n);
    }
  }

  lemma AbstractSim(a: Assembler)
    requires Inv(a)
    ensures Sim(a, Abstract(a), 0)
  {
    forall i | 0 <= i < |a.used| ensures Same(a.used[i], Abstract(a).frames[i], 0) {
      assert FrameInv(a, a.used[i]);
      AbstractSame(a.used[i]);
    }
  }

  /** One chunk, well formed or not, keeps the invariant. */
  lemma ChunkKeepsInv(a: Assembler, c: Chunk)
    requires Inv(a)
    ensures Inv(ProcessChunk(a, c).0)
  {
    AbstractSim(a);
    SimChunk(a, Abstract(a), 0, c);
  }

  // ---- the clock ----

  lemma {:induction false} LiveFacts(a: Assembler, used: seq<Frame>)
    requires forall i, j :: 0 <= i < j < |used| ==> used[i].id != used[j].id
    ensures |Live(a, used)| + |Expired(a, used)| == |used|
    ensures forall f :: f in Live(a, used) <==> f in used && !TimedOut(a, f)
    ensures forall f :: f in Expired(a, used) <==> f in used && TimedOut(a, f)
    ensures var live := Live(a, used); forall i, j :: 0 <= i < j < |live| ==> live[i].id != live[j].id
  {
    if used != [] {
      LiveFacts(a, used[1..]);
      assert forall f :: f in used <==> f == used[0] || f in used[1..];
      forall f | f in Live(a, used[1..]) ensures f.id != used[0].id {
        var j :| 0 <= j < |used[1..]| && used[1..][j] == f;
        assert f == used[j + 1];
      }
    }
  }

  /** The same frame, as old as it was. */
  ghost predicate SameAge(a: Assembler, f: Frame, a': Assembler, f': Frame) {
    f' == f.(time := f'.time) && a'.time - f'.time == a.time - f.time && f'.time <= a'.time
  }

  /**
   * Pulling the clock back frees exactly the timed-out frames, keeps the age of
   * every other frame, and leaves the clock strictly below its maximum.
   */
  lemma ReductionKeepsAges(a: Assembler)
    requires Inv(a) && a.time == MAX_CLOCK
    ensures forall f :: f in Live(a, a.used) <==> f in a.used && !TimedOut(a, f)
    ensures
      var a' := ReduceTimes(a);
      var live := Live(a, a.used);
      a'.time < a.time && |a'.used| == |live| && forall i :: 0 <= i < |live| ==> SameAge(a, live[i], a', a'.used[i])
  {
    hide FrameInv, Shape, TimedOut, Live, Expired;
    var live := Live(a, a.used);
    LiveFacts(a, a.used);
    if live != [] {
      LiveIsLate(a);
      Reduced(a, live, MinTime(live));
    }
  }

  lemma Reduced(a: Assembler, live: seq<Frame>, t: nat)
    requires 0 < t <= a.time && forall i :: 0 <= i < |live| ==> t <= live[i].time <= a.time
    ensures
      var a' := a.(used := Earlier(live, t), time := a.time - t);
      forall i :: 0 <= i < |live| ==> SameAge(a, live[i], a', a'.used[i])
  {
  }

  /** A frame that has not timed out when the clock is at its maximum has a positive time. */
  lemma LiveIsLate(a: Assembler)
    requires Inv(a) && a.time == MAX_CLOCK && Live(a, a.used) != []
    ensures 0 < MinTime(Live(a, a.used)) <= a.time
    ensures forall i :: 0 <= i < |Live(a, a.used)| ==> Live(a, a.used)[i].time <= a.time
  {
    LiveFacts(a, a.used);
    hide Shape, FrameCore;
    var live := Live(a, a.used);
    forall i | 0 <= i < |live| ensures live[i].time <= a.time {
      assert live[i] in a.used;
      assert FrameInv(a, live[i]);
    }
    var i :| 0 <= i < |live| && MinTime(live) == live[i].time;
    assert live[i] in a.used;
    assert FrameInv(a, live[i]);
  }

  lemma {:induction false} LiveSame(a: Assembler, r: Ref, d: nat, used: seq<Frame>, frames: seq<RefFrame>)
    requires a.time + d == r.time && a.tolerance == r.numFrames && |used| == |frames|
    requires forall i :: 0 <= i < |used| ==> Same(used[i], frames[i], d)
    ensures |Live(a, used)| == |RefLive(r, frames)|
    ensures forall i :: 0 <= i < |Live(a, used)| ==> Same(Live(a, used)[i], RefLive(r, frames)[i], d)
  {
    if used != [] {
      LiveSame(a, r, d, used[1..], frames[1..]);
    }
  }

  /** How far the clock is behind after a tick. */
  ghost function Offset(a: Assembler, r: Ref, d: nat): nat
    requires Sim(a, r, d)
  {
    if a.time < MAX_CLOCK then d
    else if Live(a, a.used) == [] then r.time + 1
    else d + MinTime(Live(a, a.used))
  }

  lemma TickKeepsInv(a: Assembler)
    requires Inv(a)
    ensures Inv(Tick(a))
  {
    hide FrameCore, Shape, ReduceTimes;
    InvTimes(a);
    if a.time < MAX_CLOCK {
      var a' := Tick(a);
      assert forall i :: 0 <= i < |a.used| ==> FrameInv(a, a.used[i]) ==> FrameInv(a', a.used[i]);
      ShapeClock(a, a.time + 1);
    } else {
      ReduceKeepsInv(a);
      var a1 := ReduceTimes(a);
      assert forall i :: 0 <= i < |a1.used| ==> FrameInv(a1, a1.used[i]) ==> FrameInv(a1.(time := a1.time + 1), a1.used[i]);
      ShapeClock(a1, a1.time + 1);
    }
  }

  lemma ShapeClock(a: Assembler, t: nat)
    requires Shape(a)
    ensures Shape(a.(time := t))
  {
  }

  lemma ReduceKeepsInv(a: Assembler)
    requires Inv(a) && a.time == MAX_CLOCK
    ensures (forall i :: 0 <= i < |a.used| ==> a.used[i].time <= a.time) && Inv(ReduceTimes(a)) && ReduceTimes(a).time < MAX_CLOCK
  {
    hide FrameCore, TimedOut, Live, Expired;
    InvTimes(a);
    ReductionKeepsAges(a);
    LiveFacts(a, a.used);
    var a', live := ReduceTimes(a), Live(a, a.used);
    forall i | 0 <= i < |a'.used| ensures FrameInv(a', a'.used[i]) && a'.used[i].id == live[i].id {
      assert live[i] in a.used;
      assert FrameInv(a, live[i]) && SameAge(a, live[i], a', a'.used[i]);
      CoreTime(live[i], a'.used[i], a.outputMtu);
    }
    forall i | 0 <= i < |a'.used| ensures |a'.used[i].buffer| == a.outputMtu && a'.used[i].length <= a.outputMtu {
      CoreShape(a', a'.used[i]);
    }
    forall i | 0 <= i < |a'.free| ensures |a'.free[i].buffer| == a.outputMtu {
      if i >= |a.free| { assert a'.free[i] in Expired(a, a.used); }
    }
  }

  lemma CoreTime(f: Frame, f': Frame, mtu: nat)
    requires FrameCore(f, mtu) && f' == f.(time := f'.time)
    ensures FrameCore(f', mtu)
  {
  }

  lemma SimTick(a: Assembler, r: Ref, d: nat)
    requires Sim(a, r, d)
    ensures Sim(Tick(a), RefTick(r, a.time == MAX_CLOCK), Offset(a, r, d))
  {
    hide Inv, Same, TimedOut;
    InvTimes(a);
    TickKeepsInv(a);
    if a.time == MAX_CLOCK {
      ReductionKeepsAges(a);
      LiveSame(a, r, d, a.used, r.frames);
      var a', r', live := ReduceTimes(a), RefTick(r, true), Live(a, a.used);
      forall i | 0 <= i < |live|
        ensures Same(a'.used[i], r'.frames[i], Offset(a, r, d))
      {
        assert SameAge(a, live[i], a', a'.used[i]);
        SameShift(live[i], a'.used[i], r'.frames[i], d, Offset(a, r, d));
      }
    }
  }

  lemma InvTimes(a: Assembler)
    requires Inv(a)
    ensures a.time <= MAX_CLOCK && forall i :: 0 <= i < |a.used| ==> a.used[i].time <= a.time
  {
    assert forall i :: 0 <= i < |a.used| ==> FrameInv(a, a.used[i]);
  }

  /** A frame whose time was moved with the clock still stands for the same reference frame. */
  lemma SameShift(f: Frame, f': Frame, g: RefFrame, d: nat, d': nat)
    requires Same(f, g, d) && f' == f.(time := f'.time) && f'.time + d' == f.time + d
    ensures Same(f', g, d')
  {
    forall i | 0 <= i < |g.chunks|
      ensures Holds(f', i, g.chunks[i])
    {
      assert Holds(f, i, g.chunks[i]);
    }
  }

  // ---- packets ----

  /** All chunks of one packet, in order: the new state and the frames delivered. */
  ghost function Feed(a: Assembler, cs: seq<Chunk>): (res: (Assembler, seq<seq<byte>>))
    requires Inv(a)
    ensures Inv(res.0)
    decreases |cs|
  {
    if cs == [] then (a, [])
    else
      ChunkKeepsInv(a, cs[0]);
      var (a1, out) := ProcessChunk(a, cs[0]);
      var (a2, outs) := Feed(a1, cs[1..]);
      (a2, if out.Some? then [out.value] + outs else outs)
  }

  ghost function FeedPackets(a: Assembler, ps: seq<seq<byte>>): (res: (Assembler, seq<seq<byte>>))
    requires Inv(a)
    ensures Inv(res.0)
    decreases |ps|
  {
    if ps == [] then (a, [])
    else
      var (a1, out) := Feed(a, Parse(ps[0]));
      TickKeepsInv(a1);
      var (a2, outs) := FeedPackets(Tick(a1), ps[1..]);
      (a2, out + outs)
  }

  ghost function RefFeed(r: Ref, cs: seq<Chunk>): (Ref, seq<seq<byte>>)
    decreases |cs|
  {
    if cs == [] then (r, [])
    else
      var (r1, out) := RefChunk(r, cs[0]);
      var (r2, outs) := RefFeed(r1, cs[1..]);
      (r2, if out.Some? then [out.value] + outs else outs)
  }

  ghost function RefFeedPackets(r: Ref, ps: seq<seq<byte>>, purge: seq<bool>): (Ref, seq<seq<byte>>)
    requires |purge| == |ps|
    decreases |ps|
  {
    if ps == [] then (r, [])
    else
      var (r1, out) := RefFeed(r, Parse(ps[0]));
      var (r2, outs) := RefFeedPackets(RefTick(r1, purge[0]), ps[1..], purge[1..]);
      (r2, out + outs)
  }

  /** After which packets the clock is pulled back. */
  ghost function Purges(a: Assembler, ps: seq<seq<byte>>): (purge: seq<bool>)
    requires Inv(a)
    ensures |purge| == |ps|
    decreases |ps|
  {
    if ps == [] then []
    else
      var a1 := Feed(a, Parse(ps[0])).0;
      TickKeepsInv(a1);
      [a1.time == MAX_CLOCK] + Purges(Tick(a1), ps[1..])
  }

  lemma {:induction false} SimFeed(a: Assembler, r: Ref, d: nat, cs: seq<Chunk>)
    requires Sim(a, r, d)
    ensures Sim(Feed(a, cs).0, RefFeed(r, cs).0, d) && Feed(a, cs).1 == RefFeed(r, cs).1
    decreases |cs|
  {
    hide Sim, Inv, ProcessChunk, RefChunk;
    SimIsInv(a, r, d);
    if cs != [] {
      ChunkKeepsInv(a, cs[0]);
      SimChunk(a, r, d, cs[0]);
      SimFeed(ProcessChunk(a, cs[0]).0, RefChunk(r, cs[0]).0, d, cs[1..]);
    }
  }

  lemma SimIsInv(a: Assembler, r: Ref, d: nat)
    requires Sim(a, r, d)
    ensures Inv(a) && forall i :: 0 <= i < |a.used| ==> a.used[i].time <= a.time
  {
    assert forall i :: 0 <= i < |a.used| ==> FrameInv(a, a.used[i]);
  }

  /**
   * On every sequence of packets, well formed or not, the assembler delivers
   * what the reference delivers.
   */
  lemma {:induction false} RefinesReference(a: Assembler, r: Ref, d: nat, ps: seq<seq<byte>>)
    requires Sim(a, r, d)
    ensures FeedPackets(a, ps).1 == RefFeedPackets(r, ps, Purges(a, ps)).1
    ensures exists d' :: Sim(FeedPackets(a, ps).0, RefFeedPackets(r, ps, Purges(a, ps)).0, d')
    decreases |ps|
  {
    hide Sim, Inv, Feed, RefFeed, Tick, RefTick, Parse, Offset;
    SimIsInv(a, r, d);
    if ps != [] {
      var cs := Parse(ps[0]);
      SimFeed(a, r, d, cs);
      var a1, r1 := Feed(a, cs).0, RefFeed(r, cs).0;
      SimTick(a1, r1, d);
      SimIsInv(a1, r1, d);
      TickKeepsInv(a1);
      RefinesReference(Tick(a1), RefTick(r1, a1.time == MAX_CLOCK), Offset(a1, r1, d), ps[1..]);
    }
  }
}
