/**
 * Disassembling and reassembling gives back the same packets, in order.
 */
module FragmentRoundTrip {
  import opened Bytes
  import opened FragmentModel
  import opened FragmentReference
  import opened FragmentRefinement
  import opened FragmentDisassembler

  /** bdivide_up */
  function CeilDiv(a: nat, b: nat): nat
    requires b > 0
  {
    if a % b > 0 then a / b + 1 else a / b
  }

  /** The length of a chunk at the beginning of an output packet, if the frame has that much left. */
  function FullLen(d: Disassembler): int {
    if d.chunkMtu < 0 then d.outputMtu - HEADER else Min(d.chunkMtu, d.outputMtu - HEADER)
  }

  /**
   * fragmentproto_max_chunks_for_frame; with a chunk limit, a full chunk lies
   * between any two that were cut short by the end of an output packet.
   */
  function MaxChunks(d: Disassembler, m: nat): nat
    requires HEADER < d.outputMtu
  {
    if d.chunkMtu < 0 then CeilDiv(m, FullLen(d)) + 1 else 2 * CeilDiv(m, FullLen(d) + 1)
  }

  /** The receiver is configured for packets of up to `m` bytes from this sender. */
  ghost predicate Fit(d: Disassembler, r: Ref, m: nat) {
    HEADER < d.outputMtu && m <= r.mtu && m < 0x1_0000 && 0 < r.numFrames && MaxChunks(d, m) <= r.numChunks
  }

  // ---- the first part of a frame ----

  /** `cs` are consecutive non-empty pieces that make up data[..used]. */
  ghost predicate Split(cs: seq<Chunk>, id: nat, data: seq<byte>, used: nat)
    decreases |cs|
  {
    if cs == [] then used == 0
    else
      var c := cs[|cs| - 1];
      && c.id == id && !c.last && 0 < |c.data| && End(c) == used <= |data| && c.data == data[c.start..used]
      && Split(cs[..|cs| - 1], id, data, c.start)
  }

  lemma {:induction false} SplitFacts(cs: seq<Chunk>, id: nat, data: seq<byte>, used: nat)
    requires Split(cs, id, data, used)
    ensures used <= |data| && LastEnd(cs) == -1
    ensures forall i :: 0 <= i < |cs| ==> PieceOf(cs[i], data) && End(cs[i]) <= used
    ensures forall x :: 0 <= x < used ==> Covered(cs, x)
  {
    if cs != [] {
      var rest, c := cs[..|cs| - 1], cs[|cs| - 1];
      SplitFacts(rest, id, data, c.start);
      forall i | 0 <= i < |cs| ensures PieceOf(cs[i], data) && End(cs[i]) <= used {
        if i < |rest| { assert cs[i] == rest[i]; }
      }
      forall x | 0 <= x < used ensures Covered(cs, x) {
        if x < c.start {
          assert Covered(rest, x);
          var i :| 0 <= i < |rest| && Covers(rest[i], x);
          assert Covers(cs[i], x);
        } else {
          assert Covers(cs[|cs| - 1], x);
        }
      }
    }
  }

  ghost predicate PieceOf(c: Chunk, data: seq<byte>) {
    End(c) <= |data| && c.data == data[c.start..End(c)]
  }

  lemma ByteAtPiece(cs: seq<Chunk>, data: seq<byte>, x: nat)
    requires Covered(cs, x) && forall i :: 0 <= i < |cs| ==> PieceOf(cs[i], data)
    ensures x < |data| && ByteAt(cs, x) == data[x]
  {
    forall i | 0 <= i < |cs| && Covers(cs[i], x) ensures x < |data| && cs[i].data[x - cs[i].start] == data[x] {
      assert PieceOf(cs[i], data);
    }
  }

  /** Pieces of one packet that cover it assemble to it. */
  lemma AssemblePieces(cs: seq<Chunk>, data: seq<byte>)
    requires LastEnd(cs) == |data| && forall i :: 0 <= i < |cs| ==> PieceOf(cs[i], data)
    requires forall x :: 0 <= x < |data| ==> Covered(cs, x)
    ensures Complete(cs) && Assemble(cs) == data
  {
    hide PieceOf, Covered, ByteAt;
    forall x: nat | x < |data| ensures Assemble(cs)[x] == data[x] {
      ByteAtPiece(cs, data, x);
    }
  }

  /** How many bytes `n` chunks have at least, none of them the last one of the frame. */
  ghost predicate CountOk(d: Disassembler, n: nat, used: nat) {
    if d.chunkMtu < 0 then (n - 1) * FullLen(d) < used else n / 2 * FullLen(d) + (n + 1) / 2 <= used
  }

  /** The same when the last of them was full. */
  ghost predicate CountFull(d: Disassembler, n: nat, used: nat) {
    d.chunkMtu > 0 && (n + 1) / 2 * FullLen(d) + n / 2 <= used
  }

  /** One more chunk, with a chunk limit. */
  lemma CountNext(d: Disassembler, n: nat, used: nat, len: nat)
    requires HEADER < d.outputMtu && d.chunkMtu > 0 && len > 0
    ensures CountOk(d, n, used) && len >= FullLen(d) ==> CountFull(d, n + 1, used + len)
    ensures CountFull(d, n, used) ==> CountOk(d, n, used) && CountOk(d, n + 1, used + len)
  {
    var s := FullLen(d);
    assert (n + 2) / 2 == n / 2 + 1;
    assert (n / 2 + 1) * s == n / 2 * s + s;
    assert (n + 1) / 2 == n / 2 || (n + 1) / 2 == n / 2 + 1;
  }

  lemma CountRoom(d: Disassembler, n: nat, used: nat, len: nat, m: nat)
    requires HEADER < d.outputMtu && CountOk(d, n, used) && used < len <= m
    ensures n < MaxChunks(d, m)
  {
    hide CeilDiv;
    var p := FullLen(d);
    if d.chunkMtu < 0 {
      if n > 0 {
        FewerThan(m, p, n - 1);
      }
    } else {
      HalvesApart(n, p);
      FewerThan(m, p + 1, n / 2);
    }
  }

  lemma HalvesApart(n: nat, p: nat)
    ensures n / 2 * (p + 1) <= n / 2 * p + (n + 1) / 2
  {
    assert n / 2 * (p + 1) == n / 2 * p + n / 2;
  }

  lemma FewerThan(m: nat, p: nat, k: nat)
    requires p > 0 && k * p < m
    ensures k < CeilDiv(m, p)
  {
    var q := CeilDiv(m, p);
    CeilEnough(m, p);
    if q <= k {
      MulMono(q, k, p);
    }
  }

  lemma CeilEnough(m: nat, p: nat)
    requires p > 0
    ensures m <= CeilDiv(m, p) * p
  {
    assert m == m / p * p + m % p;
    assert (m / p + 1) * p == m / p * p + p;
  }

  lemma MulMono(a: nat, b: nat, p: nat)
    requires a <= b
    ensures a * p <= b * p
  {
  }

  /** The receiver holds exactly the pieces of data[..used], or nothing if there are none. */
  ghost predicate Partial(d: Disassembler, r: Ref, data: seq<byte>, used: nat) {
    if used == 0 then r.frames == []
    else
      && |r.frames| == 1
      && var g := r.frames[0];
         && g.id == d.frameId && r.time - g.time <= 1
         && Split(g.chunks, d.frameId, data, used) && CountOk(d, |g.chunks|, used)
  }

  function Held(r: Ref): nat {
    if r.frames == [] then 0 else |r.frames[0].chunks|
  }

  lemma FeedPiece(d: Disassembler, r: Ref, data: seq<byte>, used: nat, c: Chunk, m: nat)
    requires Fit(d, r, m) && |data| <= m && Partial(d, r, data, used) && used <= |data|
    requires c.id == d.frameId && c.start == used && PieceOf(c, data) && (c.last <==> End(c) == |data|)
    requires !c.last ==> 0 < |c.data| && CountOk(d, Held(r) + 1, End(c))
    ensures c.last ==> RefChunk(r, c) == (r.(frames := []), Some(data))
    ensures !c.last ==>
      && RefChunk(r, c).1 == None
      && var r' := RefChunk(r, c).0;
         && Partial(d, r', data, End(c)) && r' == r.(frames := r'.frames) && r'.frames[0].time == r.time && Held(r') == Held(r) + 1
  {
    hide RefObtain, RefClash, Complete, Assemble, MaxChunks, CountOk, PieceOf;
    ObtainOwn(d, r, data, used);
    var r1 := RefObtain(r, c.id);
    var cs := r1.frames[0].chunks;
    NextPiece(cs, d.frameId, data, used, c);
    assert Drop(r1.frames, 0) == [];
    if !c.last {
      CountRoom(d, |cs + [c]|, End(c), |data|, m);
      assert (cs + [c])[..|cs|] == cs && r1.frames[0 := RefFrame(c.id, r.time, cs + [c])] == [RefFrame(c.id, r.time, cs + [c])];
    }
  }

  /** The receiver finds the frame in progress, or an empty new one. */
  lemma ObtainOwn(d: Disassembler, r: Ref, data: seq<byte>, used: nat)
    requires 0 < r.numFrames && Partial(d, r, data, used)
    ensures
      var r1 := RefObtain(r, d.frameId);
      && |r1.frames| == 1 && r1.frames[0].id == d.frameId && r1 == r.(frames := r1.frames)
      && RefFind(r1.frames, d.frameId) == 0
      && Split(r1.frames[0].chunks, d.frameId, data, used) && |r1.frames[0].chunks| == Held(r)
  {
  }

  /** The next piece fits, and if it is the last the pieces are the packet. */
  lemma NextPiece(cs: seq<Chunk>, id: nat, data: seq<byte>, used: nat, c: Chunk)
    requires Split(cs, id, data, used) && c.id == id && c.start == used && PieceOf(c, data)
    requires c.last <==> End(c) == |data|
    ensures !RefClash(cs, c)
    ensures c.last ==> Complete(cs + [c]) && Assemble(cs + [c]) == data
    ensures !c.last ==> !Complete(cs + [c])
    ensures !c.last && 0 < |c.data| ==> Split(cs + [c], id, data, End(c))
  {
    SplitFacts(cs, id, data, used);
    var cs' := cs + [c];
    assert cs'[..|cs|] == cs;
    if c.last {
      CoverNext(cs, c, |data|);
      AssemblePieces(cs', data);
    }
  }

  lemma CoverNext(cs: seq<Chunk>, c: Chunk, n: nat)
    requires (forall x :: 0 <= x < c.start ==> Covered(cs, x)) && End(c) == n
    ensures forall x :: 0 <= x < n ==> Covered(cs + [c], x)
  {
    var cs' := cs + [c];
    forall x: nat | x < n ensures Covered(cs', x) {
      if x < c.start {
        assert Covered(cs, x);
        var i :| 0 <= i < |cs| && Covers(cs[i], x);
        assert Covers(cs'[i], x);
      } else {
        assert Covers(cs'[|cs|], x);
      }
    }
  }

  // ---- one call of write_chunks ----

  lemma {:induction false} FeedCut(d: Disassembler, r: Ref, data: seq<byte>, used: nat, outLen: nat, m: nat)
    requires Fit(d, r, m) && |data| <= m && Partial(d, r, data, used)
    requires d.chunkMtu != 0 && outLen + HEADER < d.outputMtu && (used < |data| || used == |data| == 0)
    requires used > 0 && outLen > 0 ==> CountFull(d, Held(r), used)
    ensures
      var cs := Cut(d, data, used, outLen);
      var end := End(cs[|cs| - 1]);
      && (end == |data| ==> RefFeed(r, cs) == (r.(frames := []), [data]))
      && (end != |data| ==>
            && RefFeed(r, cs).1 == []
            && var r' := RefFeed(r, cs).0;
               && Partial(d, r', data, end) && r' == r.(frames := r'.frames) && |r'.frames| == 1 && r'.frames[0].time == r.time)
    decreases |data| - used
  {
    hide RefChunk, Partial, Split, Fit, MaxChunks, Cut, ChunkLen, CountOk, CountFull;
    var cs := Cut(d, data, used, outLen);
    CutStep(d, data, used, outLen);
    var c := cs[0];
    var n := |c.data|;
    if !c.last {
      PartialCounts(d, r, data, used);
      NextCount(d, Held(r), data, used, outLen);
    }
    FeedPiece(d, r, data, used, c, m);
    var r1 := RefChunk(r, c).0;
    if |cs| > 1 {
      assert cs[1..] == Cut(d, data, used + n, outLen + HEADER + n);
      assert Fit(d, r1, m) by { FitFrames(d, r, m, r1.frames); }
      FeedCut(d, r1, data, used + n, outLen + HEADER + n, m);
      assert cs[|cs| - 1] == cs[1..][|cs| - 2];
    } else {
      assert cs == [c] && RefFeed(r1, cs[1..]) == (r1, []);
      assert [data] + [] == [data];
      if !c.last {
        PartialFrames(d, r1, data, End(c));
      }
    }
  }

  lemma FitFrames(d: Disassembler, r: Ref, m: nat, frames: seq<RefFrame>)
    requires Fit(d, r, m)
    ensures Fit(d, r.(frames := frames), m)
  {
  }

  lemma PartialFrames(d: Disassembler, r: Ref, data: seq<byte>, used: nat)
    requires Partial(d, r, data, used) && used > 0
    ensures |r.frames| == 1
  {
  }

  /** The first `used` bytes of a frame have been sent in `n` chunks. */
  ghost predicate Counted(d: Disassembler, n: nat, used: nat) {
    if used == 0 then n == 0 else CountOk(d, n, used)
  }

  lemma PartialCounts(d: Disassembler, r: Ref, data: seq<byte>, used: nat)
    requires Partial(d, r, data, used)
    ensures Counted(d, Held(r), used)
  {
  }

  lemma NextCount(d: Disassembler, n: nat, data: seq<byte>, used: nat, outLen: nat)
    requires Counted(d, n, used)
    requires d.chunkMtu != 0 && outLen + HEADER < d.outputMtu && used < |data|
    requires used > 0 && outLen > 0 ==> CountFull(d, n, used)
    ensures
      var c := Cut(d, data, used, outLen)[0];
      !c.last ==>
        && 0 < |c.data| && CountOk(d, n + 1, End(c))
        && (outLen + HEADER + |c.data| + HEADER < d.outputMtu ==> CountFull(d, n + 1, End(c)))
  {
    CutStep(d, data, used, outLen);
    var c := Cut(d, data, used, outLen)[0];
    hide Cut, CountOk, CountFull, Split;
    if !c.last {
      if d.chunkMtu < 0 {
        NoFull(d, n, used);
        AfterWhole(d, n, used, |c.data|);
      } else {
        NothingYet(d);
        CountNext(d, n, used, |c.data|);
        CountNext(d, n + 1, End(c), 1);
      }
    }
  }

  lemma NothingYet(d: Disassembler)
    ensures d.chunkMtu > 0 ==> CountFull(d, 0, 0)
  {
  }

  lemma NoFull(d: Disassembler, n: nat, used: nat)
    ensures d.chunkMtu < 0 ==> !CountFull(d, n, used)
  {
  }

  /** Without a chunk limit, every chunk but the first fills its packet. */
  lemma AfterWhole(d: Disassembler, n: nat, used: nat, len: nat)
    requires d.chunkMtu < 0 && len > 0 && (used > 0 ==> CountOk(d, n, used) && len == FullLen(d)) && (used == 0 ==> n == 0)
    ensures CountOk(d, n + 1, used + len)
  {
    var p := FullLen(d);
    assert (n - 1) * p + p == n * p;
  }

  // ---- one event ----

  function Written(o: Option<seq<byte>>): seq<byte> { if o.Some? then o.value else [] }

  /**
   * The receiver has been fed every finished output packet and is at `r`; the
   * chunks `pend` are in the part-written one.
   */
  ghost predicate Link(d: Disassembler, r: Ref, pend: seq<Chunk>, m: nat) {
    && Ready(d) && Fit(d, r, m)
    && (forall c :: c in pend ==> Fits(c)) && Written(d.out) == EncodeAll(pend)
    && Partial(d, RefFeed(r, pend).0, Written(d.input), if d.input.Some? then d.inUsed else 0)
    && |Written(d.input)| <= m
  }

  /** The input packet whose last chunk this event writes. */
  function Finished(d: Disassembler, e: Event): seq<seq<byte>>
    requires Ready(d) && Enabled(d, e)
  {
    match e
    case InputSend(data) => if Step(d, e).0.input.None? then [data] else []
    case OutputRecv => if d.input.Some? && Step(d, e).0.input.None? then [d.input.value] else []
    case Timer => []
  }

  lemma {:induction false} EncodeAllAppend(a: seq<Chunk>, b: seq<Chunk>)
    ensures EncodeAll(a + b) == EncodeAll(a) + EncodeAll(b)
  {
    hide Encode;
    if a == [] {
      assert a + b == b;
    } else {
      EncodeAllAppend(a[1..], b);
      assert (a + b)[1..] == a[1..] + b;
      Assoc(Encode(a[0]), EncodeAll(a[1..]), EncodeAll(b));
    }
  }

  lemma {:induction false} RefFeedAppend(r: Ref, a: seq<Chunk>, b: seq<Chunk>)
    ensures RefFeed(r, a + b) == (RefFeed(RefFeed(r, a).0, b).0, RefFeed(r, a).1 + RefFeed(RefFeed(r, a).0, b).1)
    decreases |a|
  {
    hide RefChunk;
    if a == [] {
      assert a + b == b;
      assert [] + RefFeed(r, b).1 == RefFeed(r, b).1;
    } else {
      var (r1, out) := RefChunk(r, a[0]);
      RefFeedAppend(r1, a[1..], b);
      assert (a + b)[1..] == a[1..] + b;
      var x, y := RefFeed(r1, a[1..]).1, RefFeed(RefFeed(r, a).0, b).1;
      assert out.Some? ==> [out.value] + (x + y) == ([out.value] + x) + y;
    }
  }

  lemma {:induction false} PiecesFit(d: Disassembler, data: seq<byte>, used: nat, cs: seq<Chunk>)
    requires Pieces(d, data, used, cs) && d.frameId < 0x1_0000 && |data| < 0x1_0000 && used <= |data|
    ensures forall c :: c in cs ==> Fits(c)
    decreases |cs|
  {
    if cs != [] {
      PiecesFit(d, data, End(cs[0]), cs[1..]);
    }
  }

  lemma {:induction false} RefFeedParams(r: Ref, cs: seq<Chunk>)
    ensures RefFeed(r, cs).0 == r.(frames := RefFeed(r, cs).0.frames)
    decreases |cs|
  {
    if cs != [] {
      RefFeedParams(RefChunk(r, cs[0]).0, cs[1..]);
    }
  }

  /** The receiver after this event: a finished output packet is fed to it. */
  ghost function Receive(r: Ref, p: Option<seq<byte>>, purge: bool): Ref {
    if p.Some? then RefTick(RefFeed(r, Parse(p.value)).0, purge) else r
  }

  ghost function Received(r: Ref, p: Option<seq<byte>>): seq<seq<byte>> {
    if p.Some? then RefFeed(r, Parse(p.value)).1 else []
  }

  lemma TickKeepsPartial(d: Disassembler, r: Ref, data: seq<byte>, used: nat, purge: bool)
    requires Partial(d, r, data, used) && 0 < r.numFrames
    requires r.frames != [] ==> r.frames[0].time == r.time
    ensures Partial(d, RefTick(r, purge), data, used)
  {
    if used > 0 {
      assert r.frames == [r.frames[0]];
      assert RefLive(r, r.frames) == r.frames;
    }
  }

  /** The chunks of one write_chunks call, as the receiver takes them. */
  lemma WriteFacts(d: Disassembler, r: Ref, pend: seq<Chunk>, m: nat, data: seq<byte>, used: nat)
    requires Ready(d) && Fit(d, r, m) && |data| <= m && (forall c :: c in pend ==> Fits(c))
    requires |EncodeAll(pend)| + HEADER < d.outputMtu && (used < |data| || used == |data| == 0)
    requires used > 0 ==> pend == []
    requires Partial(d, RefFeed(r, pend).0, data, used)
    ensures
      var cs := Cut(d, data, used, |EncodeAll(pend)|);
      var all := pend + cs;
      var end := End(cs[|cs| - 1]);
      var r2 := RefFeed(r, all).0;
      && (forall c :: c in all ==> Fits(c))
      && EncodeAll(all) == EncodeAll(pend) + EncodeAll(cs) && Parse(EncodeAll(all)) == all
      && RefFeed(r, all).1 == RefFeed(r, pend).1 + (if end == |data| then [data] else [])
      && r2 == r.(frames := r2.frames)
      && (end == |data| ==> r2.frames == [])
      && (end < |data| ==> 0 < end && Partial(d, r2, data, end) && |r2.frames| == 1 && r2.frames[0].time == r2.time)
      && end <= |data|
  {
    var cs := Cut(d, data, used, |EncodeAll(pend)|);
    CutPieces(d, data, used, |EncodeAll(pend)|);
    CutSize(d, data, used, |EncodeAll(pend)|);
    PiecesFit(d, data, used, cs);
    hide Cut, Pieces, Fits, Partial, Fit, RefFeed;
    EncodeAllAppend(pend, cs);
    ParseEncode(pend + cs);
    RefFeedAppend(r, pend, cs);
    RefFeedParams(r, pend);
    RefFeedParams(r, pend + cs);
    var r1 := RefFeed(r, pend).0;
    FitFrames(d, r, m, r1.frames);
    FeedCut(d, r1, data, used, |EncodeAll(pend)|, m);
  }

  lemma PartialFor(d: Disassembler, d': Disassembler, r: Ref, data: seq<byte>, used: nat)
    requires Partial(d, r, data, used) && d'.frameId == d.frameId && d'.chunkMtu == d.chunkMtu && d'.outputMtu == d.outputMtu
    ensures Partial(d', r, data, used)
  {
  }

  /** What write_chunks does to sender and receiver together. */
  lemma WriteLink(d: Disassembler, r: Ref, pend: seq<Chunk>, m: nat, data: seq<byte>, used: nat, purge: bool)
    requires Ready(d) && Fit(d, r, m) && |data| <= m && (forall c :: c in pend ==> Fits(c))
    requires |EncodeAll(pend)| + HEADER < d.outputMtu && (used < |data| || used == |data| == 0)
    requires used > 0 ==> pend == []
    requires Partial(d, RefFeed(r, pend).0, data, used)
    requires Ready(WriteChunks(d, data, used, EncodeAll(pend)).0)
    ensures
      var (d', p) := WriteChunks(d, data, used, EncodeAll(pend));
      var pend' := if p.Some? then [] else pend + Cut(d, data, used, |EncodeAll(pend)|);
      var r' := Receive(r, p, purge);
      && Link(d', r', pend', m)
      && Received(r, p) + RefFeed(r', pend').1 == RefFeed(r, pend).1 + if d'.input.None? then [data] else []
  {
    hide Cut, Fits, Split, Parse, CountOk, RefFeed, EncodeAll, Fit, RefTick;
    WriteFacts(d, r, pend, m, data, used);
    var (d', p) := WriteChunks(d, data, used, EncodeAll(pend));
    var all := pend + Cut(d, data, used, |EncodeAll(pend)|);
    var r2 := RefFeed(r, all).0;
    FitFor(d, d', r, m);
    if p.Some? {
      assert p.value == EncodeAll(all) && Parse(p.value) == all;
      SentLink(d, d', r, r2, m, data, purge);
    } else {
      assert d'.input.None?;
    }
  }

  lemma FitFor(d: Disassembler, d': Disassembler, r: Ref, m: nat)
    requires Fit(d, r, m) && d'.chunkMtu == d.chunkMtu && d'.outputMtu == d.outputMtu
    ensures Fit(d', r, m)
  {
  }

  lemma SentLink(d: Disassembler, d': Disassembler, r: Ref, r2: Ref, m: nat, data: seq<byte>, purge: bool)
    requires Ready(d') && Fit(d', r, m) && r2 == r.(frames := r2.frames) && d'.out.None? && |data| <= m
    requires d'.chunkMtu == d.chunkMtu && d'.outputMtu == d.outputMtu
    requires d'.input.None? ==> r2.frames == []
    requires d'.input.Some? ==> d'.input.value == data && Partial(d, r2, data, d'.inUsed) && d'.frameId == d.frameId
    requires d'.input.Some? && r2.frames != [] ==> r2.frames[0].time == r2.time
    ensures Link(d', RefTick(r2, purge), [], m) && RefFeed(RefTick(r2, purge), []) == (RefTick(r2, purge), [])
  {
    var r' := RefTick(r2, purge);
    assert RefFeed(r', []) == (r', []) && EncodeAll([]) == [];
    if d'.input.Some? {
      TickKeepsPartial(d, r2, data, d'.inUsed, purge);
      PartialFor(d, d', r', data, d'.inUsed);
    }
  }

  lemma EncodeAllEmpty(cs: seq<Chunk>)
    requires EncodeAll(cs) == []
    ensures cs == []
  {
  }

  ghost function NextPend(d: Disassembler, e: Event, pend: seq<Chunk>): seq<Chunk>
    requires Ready(d) && Enabled(d, e)
  {
    if Step(d, e).1.Some? then []
    else
      match e
      case InputSend(data) => if d.out.None? then pend else pend + Cut(d, data, 0, |d.out.value|)
      case OutputRecv => if d.input.None? then pend else pend + Cut(d, d.input.value, d.inUsed, 0)
      case Timer => pend
  }

  /** After every event the receiver has delivered exactly the finished packets. */
  lemma StepLink(d: Disassembler, r: Ref, pend: seq<Chunk>, m: nat, e: Event, purge: bool)
    requires Link(d, r, pend, m) && Enabled(d, e) && (e.InputSend? ==> |e.data| <= m)
    ensures
      var (d', p) := Step(d, e);
      var r' := Receive(r, p, purge);
      var pend' := NextPend(d, e, pend);
      && Link(d', r', pend', m)
      && Received(r, p) + RefFeed(r', pend').1 == RefFeed(r, pend).1 + Finished(d, e)
  {
    StepKeepsReady(d, e);
    hide Cut, Fits, Split, Parse, CountOk, RefFeed, Fit, Encode;
    if d.out.None? {
      EncodeAllEmpty(pend);
    }
    match e
    case InputSend(data) =>
      if d.out.None? {
        InputWaits(d, r, pend, m, data);
      } else {
        WriteLink(d, r, pend, m, data, 0, purge);
      }
    case OutputRecv =>
      if d.input.None? {
        OutputWaits(d, r, pend, m);
      } else {
        WriteLink(d, r, pend, m, d.input.value, d.inUsed, purge);
      }
    case Timer =>
      TimerLink(d, r, pend, m, purge);
  }

  lemma InputWaits(d: Disassembler, r: Ref, pend: seq<Chunk>, m: nat, data: seq<byte>)
    requires Link(d, r, pend, m) && d.input.None? && d.out.None? && |data| <= m
    ensures Link(d.(input := Some(data), inUsed := 0), r, pend, m)
  {
    hide RefFeed, EncodeAll;
  }

  lemma OutputWaits(d: Disassembler, r: Ref, pend: seq<Chunk>, m: nat)
    requires Link(d, r, pend, m) && d.input.None? && d.out.None?
    ensures Link(d.(out := Some([])), r, pend, m)
  {
    hide RefFeed, EncodeAll;
  }

  lemma TimerLink(d: Disassembler, r: Ref, pend: seq<Chunk>, m: nat, purge: bool)
    requires Link(d, r, pend, m) && d.timer
    ensures
      var r' := Receive(r, d.out, purge);
      && Link(d.(out := None, timer := false), r', [], m)
      && Received(r, d.out) + RefFeed(r', []).1 == RefFeed(r, pend).1
  {
    var d' := d.(out := None, timer := false);
    ParseEncode(pend);
    hide Parse, EncodeAll, RefFeed, Split, CountOk;
    RefFeedParams(r, pend);
    FitFor(d, d', r, m);
    SentLink(d, d', r, RefFeed(r, pend).0, m, [], purge);
  }

  // ---- runs ----

  ghost predicate Runs(d: Disassembler, e: seq<Event>)
    requires Ready(d)
    decreases |e|
  {
    e == [] || (Enabled(d, e[0]) && (StepKeepsReady(d, e[0]); Runs(Step(d, e[0]).0, e[1..])))
  }

  ghost function Final(d: Disassembler, e: seq<Event>): (d': Disassembler)
    requires Ready(d) && Runs(d, e)
    ensures Ready(d')
    decreases |e|
  {
    if e == [] then d else StepKeepsReady(d, e[0]); Final(Step(d, e[0]).0, e[1..])
  }

  /** The output packets of a run. */
  ghost function Emitted(d: Disassembler, e: seq<Event>): seq<seq<byte>>
    requires Ready(d) && Runs(d, e)
    decreases |e|
  {
    if e == [] then []
    else
      StepKeepsReady(d, e[0]);
      var (d', p) := Step(d, e[0]);
      (if p.Some? then [p.value] else []) + Emitted(d', e[1..])
  }

  /** The input packets of a run. */
  function Inputs(e: seq<Event>): seq<seq<byte>> {
    if e == [] then [] else (if e[0].InputSend? then [e[0].data] else []) + Inputs(e[1..])
  }

  function Waiting(d: Disassembler): seq<seq<byte>> {
    if d.input.Some? then [d.input.value] else []
  }

  lemma NoInputLost(d: Disassembler, e: Event)
    requires Ready(d) && Enabled(d, e)
    ensures Waiting(d) + (if e.InputSend? then [e.data] else []) == Finished(d, e) + Waiting(Step(d, e).0)
  {
  }

  lemma Glue<T>(o1: seq<T>, outs: seq<T>, tail: seq<T>, r': seq<T>, r: seq<T>, f: seq<T>, w: seq<T>, w': seq<T>, i: seq<T>, rest: seq<T>)
    requires o1 + r' == r + f && w + i == f + w' && outs + tail == r' + w' + rest
    ensures (o1 + outs) + tail == r + w + (i + rest)
  {
    calc {
      (o1 + outs) + tail;
      o1 + (outs + tail);
      o1 + (r' + w' + rest);
      (o1 + r') + (w' + rest);
      (r + f) + (w' + rest);
      r + (f + w') + rest;
      r + (w + i) + rest;
      r + w + (i + rest);
    }
  }

  lemma FeedOne(r: Ref, p: Option<seq<byte>>, ps: seq<seq<byte>>, purge: seq<bool>)
    requires |purge| == |ps| + if p.Some? then 1 else 0
    ensures
      var all := (if p.Some? then [p.value] else []) + ps;
      var (r', outs) := RefFeedPackets(Receive(r, p, p.Some? && purge[0]), ps, if p.Some? then purge[1..] else purge);
      RefFeedPackets(r, all, purge) == (r', Received(r, p) + outs)
    ensures p.None? && ps == [] ==> RefFeedPackets(r, [], purge) == (r, [])
  {
    hide RefFeed, RefTick, Parse;
    if p.Some? {
      assert ([p.value] + ps)[1..] == ps;
    } else {
      assert [] + ps == ps;
      var outs := RefFeedPackets(r, ps, purge).1;
      assert [] + outs == outs;
    }
  }

  /** Delivered, in flight, and waiting: together always the packets put in, in order. */
  lemma {:induction false} RunLink(d: Disassembler, r: Ref, pend: seq<Chunk>, m: nat, e: seq<Event>, purge: seq<bool>)
    requires Link(d, r, pend, m) && Runs(d, e) && |purge| == |Emitted(d, e)|
    requires forall p :: p in Inputs(e) ==> |p| <= m
    ensures
      var (r', outs) := RefFeedPackets(r, Emitted(d, e), purge);
      var d' := Final(d, e);
      outs + (RefFeed(r', Parse(Written(d'.out))).1 + Waiting(d')) == RefFeed(r, pend).1 + Waiting(d) + Inputs(e)
    decreases |e|
  {
    hide Link, Ready, Enabled, Step, RefFeed, RefTick, Parse, Finished, Waiting, RefFeedPackets;
    LinkParse(d, r, pend, m);
    if e == [] {
      FeedOne(r, None, [], purge);
      assert [] + (RefFeed(r, pend).1 + Waiting(d)) == RefFeed(r, pend).1 + Waiting(d) + [];
    } else {
      StepKeepsReady(d, e[0]);
      var (d', p) := Step(d, e[0]);
      var flag, flags := p.Some? && purge[0], if p.Some? then purge[1..] else purge;
      assert Inputs(e) == (if e[0].InputSend? then [e[0].data] else []) + Inputs(e[1..]);
      assert forall q :: q in Inputs(e[1..]) ==> q in Inputs(e);
      assert e[0].InputSend? ==> e[0].data in Inputs(e);
      StepLink(d, r, pend, m, e[0], flag);
      NoInputLost(d, e[0]);
      var r', pend' := Receive(r, p, flag), NextPend(d, e[0], pend);
      RunLink(d', r', pend', m, e[1..], flags);
      var (rn, outs) := RefFeedPackets(r', Emitted(d', e[1..]), flags);
      assert Emitted(d, e) == (if p.Some? then [p.value] else []) + Emitted(d', e[1..]);
      FeedOne(r, p, Emitted(d', e[1..]), purge);
      var dn := Final(d, e);
      Glue(Received(r, p), outs, RefFeed(rn, Parse(Written(dn.out))).1 + Waiting(dn), RefFeed(r', pend').1, RefFeed(r, pend).1,
           Finished(d, e[0]), Waiting(d), Waiting(d'), if e[0].InputSend? then [e[0].data] else [], Inputs(e[1..]));
    }
  }

  lemma LinkParse(d: Disassembler, r: Ref, pend: seq<Chunk>, m: nat)
    requires Link(d, r, pend, m)
    ensures Ready(d) && Parse(Written(d.out)) == pend
  {
    ParseEncode(pend);
  }

  /** A sender and a receiver that hold nothing. */
  ghost predicate Fresh(d: Disassembler, a: Assembler, m: nat) {
    && Ready(d) && d.input.None? && d.out.None?
    && Inv(a) && a.used == []
    && m <= a.outputMtu && m < 0x1_0000 && MaxChunks(d, m) <= a.numChunks
  }

  /**
   * Round trip.  Whatever the packets (up to `m` bytes each, empty ones
   * included), the output MTU and the timing, the frames the assembler
   * delivers, then those in the part-written output packet, then the packet
   * still waiting, are exactly the packets put in, in order.
   */
  lemma RoundTrip(d: Disassembler, a: Assembler, m: nat, e: seq<Event>)
    requires Fresh(d, a, m) && Runs(d, e) && forall p :: p in Inputs(e) ==> |p| <= m
    ensures
      var (a', outs) := FeedPackets(a, Emitted(d, e));
      var d' := Final(d, e);
      outs + (Feed(a', Parse(Written(d'.out))).1 + Waiting(d')) == Inputs(e)
  {
    var r := Abstract(a);
    var ps := Emitted(d, e);
    assert RefFeed(r, []) == (r, []);
    assert Sim(a, r, 0) && Link(d, r, [], m);
    RefinesReference(a, r, 0, ps);
    var (a', outs) := FeedPackets(a, ps);
    var r' := RefFeedPackets(r, ps, Purges(a, ps)).0;
    hide *;
    var off :| Sim(a', r', off);
    SimFeed(a', r', off, Parse(Written(Final(d, e).out)));
    RunLink(d, r, [], m, e, Purges(a, ps));
    assert RefFeed(r, []).1 + Waiting(d) + Inputs(e) == Inputs(e);
  }
}
