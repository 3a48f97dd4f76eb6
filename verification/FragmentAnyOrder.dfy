/**
 * A frame whose chunks come in any order, over many packets, with chunks of
 * other frames between them, is delivered once and unchanged.
 */
module FragmentAnyOrder {
  import opened Bytes
  import opened Lists
  import opened FragmentModel
  import opened FragmentReference
  import opened FragmentRefinement
  import opened FragmentReduction
  import opened FragmentRoundTrip
  import opened FragmentPieces

  function OfFrame(id: nat): Chunk -> bool {
    (c: Chunk) => c.id == id
  }

  /** The chunks of frame `id` among `cs`, in order. */
  function Own(cs: seq<Chunk>, id: nat): seq<Chunk> {
    Filter(cs, OfFrame(id))
  }

  /** The chunks `qs` of frame `id` have come, the last of them `age` packets ago; none of a frame that is not begun. */
  ghost predicate Waits(r: Ref, id: nat, qs: seq<Chunk>, age: int) {
    if qs == [] then !HasLive(r, id)
    else 0 <= age <= r.time && age <= r.numFrames && RefFrame(id, r.time - age, qs) in r.frames
  }

  /** The chunk starts a new frame, there is no free entry, and the oldest frame, which has to go, is live and has this id. */
  ghost predicate RefPushes(r: Ref, c: Chunk, id: nat) {
    && End(c) <= r.mtu && Absent(r.frames, c.id)
    && |r.frames| >= r.numFrames > 0 && r.frames[0].id == id && LiveFrame(r, r.frames[0])
  }

  /** A chunk leaves the frames of other ids alone, except for the one it may push out. */
  lemma Others(r: Ref, c: Chunk, g: RefFrame)
    requires Ok(r) && g.id != c.id
    ensures var r' := RefChunk(r, c).0; r' == r.(frames := r'.frames)
    ensures g in RefChunk(r, c).0.frames ==> g in r.frames
    ensures g in r.frames && (LiveFrame(r, g) ==> !RefPushes(r, c, g.id)) && LiveFrame(r, g) ==> g in RefChunk(r, c).0.frames
  {
    hide RefChunk, Filter, Grown;
    ChunkClock(r, c);
    if End(c) > r.mtu {
      assert RefChunk(r, c).0 == r by { TooLong(r, c); }
    } else if HasLive(r, c.id) {
      OthersLive(r, c, g);
    } else {
      NewChunk(r, c);
      GrownSame(r, r, RefFrame(c.id, r.time, []), c);
      var fs := Filter(r.frames, NotId(c.id));
      FilterIn(r.frames, NotId(c.id), g);
      FilterAll(r.frames, NotId(c.id));
      if |fs| >= r.numFrames && g in fs && g !in fs[1..] {
        assert g == fs[0] == r.frames[0];
      }
    }
  }

  lemma TooLong(r: Ref, c: Chunk)
    requires End(c) > r.mtu
    ensures RefChunk(r, c) == (r, None)
  {
  }

  lemma OthersLive(r: Ref, c: Chunk, g: RefFrame)
    requires Ok(r) && g.id != c.id && End(c) <= r.mtu && HasLive(r, c.id)
    ensures g in RefChunk(r, c).0.frames <==> g in r.frames
  {
    hide RefAdd, RefObtain, Grown, Out;
    var k := ObtainLive(r, c.id);
    Around(r.frames, k);
    AddAround(r, r.frames[..k], r.frames[k], r.frames[k + 1..], c);
    GrownSame(r, r, r.frames[k], c);
  }

  lemma OtherWaits(r: Ref, c: Chunk, id: nat, qs: seq<Chunk>, age: int)
    requires Ok(r) && c.id != id && Waits(r, id, qs, age) && !RefPushes(r, c, id)
    ensures Waits(RefChunk(r, c).0, id, qs, age)
  {
    hide RefChunk, RefPushes;
    ChunkClock(r, c);
    if qs == [] {
      forall g | g in RefChunk(r, c).0.frames && g.id == id ensures !LiveFrame(r, g) { Others(r, c, g); }
    } else {
      Others(r, c, RefFrame(id, r.time - age, qs));
    }
  }

  /** The frame the chunk goes to: the one waiting, or a new one. */
  lemma OwnFrame(r: Ref, id: nat, qs: seq<Chunk>, age: int) returns (a: seq<RefFrame>, g: RefFrame, b: seq<RefFrame>)
    requires Ok(r) && Waits(r, id, qs, age)
    ensures Ok(RefObtain(r, id)) && RefObtain(r, id) == r.(frames := a + [g] + b) && g.id == id && g.chunks == qs
  {
    hide RefObtain, Filter;
    ObtainOk(r, id);
    if qs == [] {
      ObtainNew(r, id);
      a, g, b := Room(r.numFrames, Filter(r.frames, NotId(id))), RefFrame(id, r.time, []), [];
      assert a + [g] + [] == a + [g];
    } else {
      var h := RefFrame(id, r.time - age, qs);
      assert HasLive(r, id);
      var k := ObtainLive(r, id);
      Around(r.frames, k);
      a, g, b := r.frames[..k], r.frames[k], r.frames[k + 1..];
      assert h in a + [g] + b;
    }
  }

  /** What has come after `k` pieces; nothing is kept of a frame that is complete. */
  function Got(os: seq<Chunk>, k: nat): seq<Chunk>
    requires k <= |os|
  {
    if k == |os| then [] else os[..k]
  }

  /** The next piece is added to the frame; the final one makes it complete. */
  lemma OwnChunk(r: Ref, os: seq<Chunk>, id: nat, data: seq<byte>, k: nat, age: int)
    requires Ok(r) && Shuffled(os, id, data) && LastAtEnd(os, data) && |os| <= r.numChunks && |data| <= r.mtu
    requires k < |os| && Waits(r, id, Got(os, k), age)
    ensures Waits(RefChunk(r, os[k]).0, id, Got(os, k + 1), 0)
    ensures RefChunk(r, os[k]).1 == if k + 1 == |os| then Some(data) else None
  {
    var c := os[k];
    assert PieceOf(c, data) && c.id == id;
    PieceFits(os, id, data, k);
    hide Shuffled, LastAtEnd, RefAdd, RefObtain, RefClash, Complete, Assemble;
    var a, g, b := OwnFrame(r, id, Got(os, k), age);
    var r1 := RefObtain(r, id);
    AddAround(r1, a, g, b, c);
    assert os[..k] + [c] == os[..k + 1];
    if k + 1 == |os| {
      assert os[..k + 1] == os;
      FrameGone(r1, a, g, b);
    } else {
      FrameStays(r1, a, RefFrame(id, r1.time, os[..k + 1]), b);
    }
  }

  lemma FrameGone(r: Ref, a: seq<RefFrame>, g: RefFrame, b: seq<RefFrame>)
    requires Ok(r) && r.frames == a + [g] + b
    ensures Waits(r.(frames := a + [] + b), g.id, [], 0)
  {
    Around(r.frames, |a|);
    assert r.frames[..|a|] == a && r.frames[|a| + 1..] == b && r.frames[|a|] == g;
  }

  lemma FrameStays(r: Ref, a: seq<RefFrame>, g: RefFrame, b: seq<RefFrame>)
    requires g.time == r.time && g.chunks != []
    ensures Waits(r.(frames := a + [g] + b), g.id, g.chunks, 0)
  {
    assert (a + [g] + b)[|a|] == g;
  }

  lemma TickWaits(r: Ref, purge: bool, id: nat, qs: seq<Chunk>, age: int)
    requires Waits(r, id, qs, age) && (qs != [] ==> age < r.numFrames)
    ensures Waits(RefTick(r, purge), id, qs, age + 1)
  {
    hide Filter;
    var r' := RefTick(r, purge);
    LiveIsFilter(r, r.frames);
    forall g ensures g in r'.frames ==> g in r.frames { FilterIn(r.frames, From(r.time - r.numFrames), g); }
    FilterIn(r.frames, From(r.time - r.numFrames), RefFrame(id, if qs == [] || age < 0 then 0 else r.time - age, qs));
  }

  // ---- runs of the reference ----

  /** What the chunks of frame `id` deliver. */
  ghost function RefOwnFeed(r: Ref, cs: seq<Chunk>, id: nat): seq<seq<byte>>
    decreases |cs|
  {
    if cs == [] then []
    else
      var (r', out) := RefChunk(r, cs[0]);
      (if cs[0].id == id && out.Some? then [out.value] else []) + RefOwnFeed(r', cs[1..], id)
  }

  ghost predicate RefSparedFeed(r: Ref, cs: seq<Chunk>, id: nat)
    decreases |cs|
  {
    cs == [] || (!RefPushes(r, cs[0], id) && RefSparedFeed(RefChunk(r, cs[0]).0, cs[1..], id))
  }

  lemma {:induction false} FeedOwn(r: Ref, cs: seq<Chunk>, os: seq<Chunk>, id: nat, data: seq<byte>, k: nat, age: int)
    requires Ok(r) && Shuffled(os, id, data) && LastAtEnd(os, data) && |os| <= r.numChunks && |data| <= r.mtu
    requires k + |Own(cs, id)| <= |os| && Own(cs, id) == os[k..k + |Own(cs, id)|]
    requires Waits(r, id, Got(os, k), age) && RefSparedFeed(r, cs, id)
    ensures
      var k' := k + |Own(cs, id)|;
      && Waits(RefFeed(r, cs).0, id, Got(os, k'), if k' > k then 0 else age)
      && RefOwnFeed(r, cs, id) == if k < k' == |os| then [data] else []
    decreases |cs|
  {
    hide Shuffled, LastAtEnd, RefChunk, Waits, RefPushes, Ok;
    if cs != [] {
      var c, r' := cs[0], RefChunk(r, cs[0]).0;
      var own := Own(cs[1..], id);
      ChunkOk(r, c);
      ChunkClock(r, c);
      if c.id == id {
        assert Own(cs, id) == [c] + own;
        assert c == os[k] && own == os[k + 1..k + 1 + |own|];
        OwnChunk(r, os, id, data, k, age);
        FeedOwn(r', cs[1..], os, id, data, k + 1, 0);
      } else {
        assert Own(cs, id) == own;
        OtherWaits(r, c, id, Got(os, k), age);
        FeedOwn(r', cs[1..], os, id, data, k, age);
      }
    }
  }

  /** The chunks of frame `id` in all packets, in order of arrival. */
  function Arrived(ps: seq<seq<byte>>, id: nat): seq<Chunk> {
    if ps == [] then [] else Own(Parse(ps[0]), id) + Arrived(ps[1..], id)
  }

  /**
   * Two packets with chunks of frame `id`, and none such between, are at most
   * `tolerance` packets apart.  The last one so far came `age` packets ago, if
   * that is not negative.
   */
  predicate Prompt(ps: seq<seq<byte>>, id: nat, age: int, tolerance: nat) {
    ps == [] ||
    if Own(Parse(ps[0]), id) == [] then Prompt(ps[1..], id, Later(age), tolerance)
    else age <= tolerance && Prompt(ps[1..], id, 1, tolerance)
  }

  function Later(age: int): int {
    if age < 0 then age else age + 1
  }

  lemma {:induction false} PromptAge(ps: seq<seq<byte>>, id: nat, age: int, tolerance: nat)
    requires Prompt(ps, id, age, tolerance) && Arrived(ps, id) != []
    ensures age <= tolerance
  {
    if Own(Parse(ps[0]), id) == [] {
      PromptAge(ps[1..], id, Later(age), tolerance);
    }
  }

  ghost function RefOwn(r: Ref, ps: seq<seq<byte>>, purge: seq<bool>, id: nat): seq<seq<byte>>
    requires |purge| == |ps|
    decreases |ps|
  {
    if ps == [] then []
    else
      var cs := Parse(ps[0]);
      RefOwnFeed(r, cs, id) + RefOwn(RefTick(RefFeed(r, cs).0, purge[0]), ps[1..], purge[1..], id)
  }

  ghost predicate RefSpared(r: Ref, ps: seq<seq<byte>>, purge: seq<bool>, id: nat)
    requires |purge| == |ps|
    decreases |ps|
  {
    ps == [] ||
    (var cs := Parse(ps[0]);
     RefSparedFeed(r, cs, id) && RefSpared(RefTick(RefFeed(r, cs).0, purge[0]), ps[1..], purge[1..], id))
  }

  lemma TickOk(r: Ref, purge: bool)
    requires Ok(r)
    ensures Ok(RefTick(r, purge))
  {
    hide Filter;
    LiveIsFilter(r, r.frames);
    FilterDistinct(r.frames, From(r.time - r.numFrames));
  }

  lemma {:induction false} FeedClock(r: Ref, cs: seq<Chunk>)
    ensures var r' := RefFeed(r, cs).0; r' == r.(frames := r'.frames)
    decreases |cs|
  {
    hide RefChunk;
    if cs != [] {
      ChunkClock(r, cs[0]);
      FeedClock(RefChunk(r, cs[0]).0, cs[1..]);
    }
  }

  lemma {:induction false} RunOwn(r: Ref, ps: seq<seq<byte>>, purge: seq<bool>, os: seq<Chunk>, id: nat, data: seq<byte>,
                                  k: nat, age: int)
    requires Ok(r) && Shuffled(os, id, data) && LastAtEnd(os, data) && |os| <= r.numChunks && |data| <= r.mtu
    requires |purge| == |ps| && k <= |os| && Arrived(ps, id) == os[k..]
    requires Waits(r, id, Got(os, k), age) && RefSpared(r, ps, purge, id) && Prompt(ps, id, age, r.numFrames)
    ensures RefOwn(r, ps, purge, id) == if k < |os| then [data] else []
    decreases |ps|
  {
    hide Shuffled, LastAtEnd, Waits, Ok, RefSparedFeed, RefOwnFeed, RefFeed, RefTick, Own, Parse;
    if ps != [] {
      var cs := Parse(ps[0]);
      var own, rest := Own(cs, id), Arrived(ps[1..], id);
      var k' := k + |own|;
      assert own == os[k..k'] && rest == os[k'..] by {
        assert |own + rest| == |os[k..]|;
        assert own == os[k..][..|own|] && rest == os[k..][|own|..];
      }
      FeedOwn(r, cs, os, id, data, k, age);
      FeedOk(r, cs);
      FeedClock(r, cs);
      var r1, age1 := RefFeed(r, cs).0, if k' > k then 0 else age;
      TickOk(r1, purge[0]);
      if Got(os, k') != [] {
        PromptAge(ps[1..], id, Later(age1), r.numFrames);
        WaitsAge(r1, id, Got(os, k'), age1);
        TickWaits(r1, purge[0], id, Got(os, k'), age1);
      } else {
        TickWaits(r1, purge[0], id, [], age1);
        WaitsNone(RefTick(r1, purge[0]), id, age1 + 1, Later(age1));
      }
      TickClock(r1, purge[0]);
      RunOwn(RefTick(r1, purge[0]), ps[1..], purge[1..], os, id, data, k', Later(age1));
    }
  }

  lemma TickClock(r: Ref, purge: bool)
    ensures var r' := RefTick(r, purge); r'.numFrames == r.numFrames && r'.numChunks == r.numChunks && r'.mtu == r.mtu
  {
  }

  lemma WaitsAge(r: Ref, id: nat, qs: seq<Chunk>, age: int)
    requires Waits(r, id, qs, age) && qs != []
    ensures age >= 0
  {
  }

  lemma WaitsNone(r: Ref, id: nat, age: int, age': int)
    requires Waits(r, id, [], age)
    ensures Waits(r, id, [], age')
  {
  }

  // ---- the assembler ----

  /** The guard of free_oldest_frame: the chunk needs a new entry, none is free, and the oldest frame is live and has this id. */
  ghost predicate Pushes(a: Assembler, c: Chunk, id: nat) {
    && End(c) <= a.outputMtu && Find(a.used, c.id) == |a.used| && a.free == []
    && a.used != [] && a.used[0].id == id && !TimedOut(a, a.used[0])
  }

  ghost predicate SparedFeed(a: Assembler, cs: seq<Chunk>, id: nat)
    requires Inv(a)
    decreases |cs|
  {
    cs == [] ||
    (!Pushes(a, cs[0], id) && (ChunkKeepsInv(a, cs[0]); SparedFeed(ProcessChunk(a, cs[0]).0, cs[1..], id)))
  }

  /** No other frame pushes out frame `id` while it is live. */
  ghost predicate Spared(a: Assembler, ps: seq<seq<byte>>, id: nat)
    requires Inv(a)
    decreases |ps|
  {
    ps == [] ||
    (var a1 := Feed(a, Parse(ps[0])).0;
     SparedFeed(a, Parse(ps[0]), id) && (TickKeepsInv(a1); Spared(Tick(a1), ps[1..], id)))
  }

  ghost function OwnFeed(a: Assembler, cs: seq<Chunk>, id: nat): seq<seq<byte>>
    requires Inv(a)
    decreases |cs|
  {
    if cs == [] then []
    else
      ChunkKeepsInv(a, cs[0]);
      var (a', out) := ProcessChunk(a, cs[0]);
      (if cs[0].id == id && out.Some? then [out.value] else []) + OwnFeed(a', cs[1..], id)
  }

  /** What is delivered of frame `id`, by chunks with that id. */
  ghost function Delivered(a: Assembler, ps: seq<seq<byte>>, id: nat): seq<seq<byte>>
    requires Inv(a)
    decreases |ps|
  {
    if ps == [] then []
    else
      var a1 := Feed(a, Parse(ps[0])).0;
      TickKeepsInv(a1);
      OwnFeed(a, Parse(ps[0]), id) + Delivered(Tick(a1), ps[1..], id)
  }

  lemma SimPushes(a: Assembler, r: Ref, d: nat, c: Chunk, id: nat)
    requires Sim(a, r, d)
    ensures Pushes(a, c, id) <==> RefPushes(r, c, id)
  {
    SimHeads(a, r, d);
    FindSame(a.used, r.frames, c.id);
    var k := RefFind(r.frames, c.id);
    assert k < |r.frames| ==> r.frames[k] in r.frames;
    hide Inv, Same;
    assert Shape(a) by { SimShape(a, r, d); }
  }

  lemma SimShape(a: Assembler, r: Ref, d: nat)
    requires Sim(a, r, d)
    ensures Shape(a)
  {
  }

  lemma {:induction false} SimOwnFeed(a: Assembler, r: Ref, d: nat, cs: seq<Chunk>, id: nat)
    requires Sim(a, r, d)
    ensures Inv(a) && OwnFeed(a, cs, id) == RefOwnFeed(r, cs, id)
    ensures SparedFeed(a, cs, id) <==> RefSparedFeed(r, cs, id)
    decreases |cs|
  {
    hide Sim, Inv, ProcessChunk, RefChunk, Pushes, RefPushes;
    SimIsInv(a, r, d);
    if cs != [] {
      ChunkKeepsInv(a, cs[0]);
      SimPushes(a, r, d, cs[0], id);
      SimChunk(a, r, d, cs[0]);
      SimOwnFeed(ProcessChunk(a, cs[0]).0, RefChunk(r, cs[0]).0, d, cs[1..], id);
    }
  }

  lemma {:induction false} SimOwn(a: Assembler, r: Ref, d: nat, ps: seq<seq<byte>>, id: nat)
    requires Sim(a, r, d)
    ensures Inv(a) && Delivered(a, ps, id) == RefOwn(r, ps, Purges(a, ps), id)
    ensures Spared(a, ps, id) <==> RefSpared(r, ps, Purges(a, ps), id)
    decreases |ps|
  {
    hide Sim, Inv, Feed, RefFeed, Tick, RefTick, Parse, Offset, OwnFeed, RefOwnFeed, SparedFeed, RefSparedFeed;
    SimIsInv(a, r, d);
    if ps != [] {
      var cs := Parse(ps[0]);
      SimOwnFeed(a, r, d, cs, id);
      SimFeed(a, r, d, cs);
      var a1, r1 := Feed(a, cs).0, RefFeed(r, cs).0;
      SimTick(a1, r1, d);
      SimIsInv(a1, r1, d);
      TickKeepsInv(a1);
      SimOwn(Tick(a1), RefTick(r1, a1.time == MAX_CLOCK), Offset(a1, r1, d), ps[1..], id);
    }
  }

  /** No live frame has this id. */
  ghost predicate Unused(a: Assembler, id: nat) {
    forall i :: 0 <= i < |a.used| && a.used[i].id == id ==> TimedOut(a, a.used[i])
  }

  lemma UnusedWaits(a: Assembler, r: Ref, d: nat, id: nat)
    requires Sim(a, r, d) && Unused(a, id)
    ensures Ok(r) && Waits(r, id, [], -1)
  {
    SimOk(a, r, d);
    SimHeads(a, r, d);
  }

  /**
   * The chunks of a frame may come in any order, spread over any packets, with
   * chunks of other frames before, between and after them, and with the clock
   * pulled back at any time: if two packets with its chunks are never more than
   * `tolerance` packets apart and no other frame pushes it out, it is delivered
   * once and unchanged.
   */
  lemma AnyOrder(a: Assembler, cs: seq<Chunk>, ps: seq<seq<byte>>, id: nat, data: seq<byte>)
    requires Inv(a) && Whole(cs, id, data) && multiset(Arrived(ps, id)) == multiset(cs)
    requires |cs| <= a.numChunks && |data| <= a.outputMtu && Unused(a, id)
    requires Prompt(ps, id, -1, a.tolerance) && Spared(a, ps, id)
    ensures Delivered(a, ps, id) == [data]
  {
    var r, purge := Abstract(a), Purges(a, ps);
    AbstractSim(a);
    UnusedWaits(a, r, 0, id);
    SimOwn(a, r, 0, ps, id);
    ArrivedWhole(r, cs, ps, purge, id, data);
  }

  lemma ArrivedWhole(r: Ref, cs: seq<Chunk>, ps: seq<seq<byte>>, purge: seq<bool>, id: nat, data: seq<byte>)
    requires Ok(r) && Waits(r, id, [], -1) && Whole(cs, id, data) && multiset(Arrived(ps, id)) == multiset(cs)
    requires |cs| <= r.numChunks && |data| <= r.mtu && |purge| == |ps|
    requires Prompt(ps, id, -1, r.numFrames) && RefSpared(r, ps, purge, id)
    ensures RefOwn(r, ps, purge, id) == [data]
  {
    var os := Arrived(ps, id);
    WholeShuffled(cs, id, data);
    PermutedShuffled(cs, os, id, data);
    assert |os| == |multiset(os)| == |multiset(cs)| == |cs|;
    hide Ok, Waits, Prompt, RefSpared, RefOwn, Shuffled, LastAtEnd, Arrived;
    assert os[0..] == os && Got(os, 0) == [];
    RunOwn(r, ps, purge, os, id, data, 0, -1);
  }

  // ---- a frame alone ----

  ghost predicate OnlyFrame(ps: seq<seq<byte>>, id: nat) {
    forall p :: p in ps ==> forall c :: c in Parse(p) ==> c.id == id
  }

  lemma {:induction false} AloneFeed(a: Assembler, cs: seq<Chunk>, id: nat)
    requires Inv(a) && forall c :: c in cs ==> c.id == id
    ensures SparedFeed(a, cs, id) && Feed(a, cs).1 == OwnFeed(a, cs, id)
    decreases |cs|
  {
    hide FrameInv, ProcessChunk;
    if cs != [] {
      assert cs[0].id == id;
      ChunkKeepsInv(a, cs[0]);
      AloneFeed(ProcessChunk(a, cs[0]).0, cs[1..], id);
      assert [] + OwnFeed(ProcessChunk(a, cs[0]).0, cs[1..], id) == OwnFeed(ProcessChunk(a, cs[0]).0, cs[1..], id);
    }
  }

  lemma {:induction false} AloneRun(a: Assembler, ps: seq<seq<byte>>, id: nat)
    requires Inv(a) && OnlyFrame(ps, id)
    ensures Spared(a, ps, id) && FeedPackets(a, ps).1 == Delivered(a, ps, id)
    decreases |ps|
  {
    hide Inv, Feed, OwnFeed, SparedFeed, Tick, Parse;
    if ps != [] {
      assert ps[0] in ps;
      AloneFeed(a, Parse(ps[0]), id);
      var a1 := Feed(a, Parse(ps[0])).0;
      TickKeepsInv(a1);
      InvTimes(a1);
      assert OnlyFrame(ps[1..], id) by { assert forall p :: p in ps[1..] ==> p in ps; }
      AloneRun(Tick(a1), ps[1..], id);
    }
  }

  /** When nothing else comes, the frame is all that is delivered. */
  lemma AnyOrderAlone(a: Assembler, cs: seq<Chunk>, ps: seq<seq<byte>>, id: nat, data: seq<byte>)
    requires Inv(a) && Whole(cs, id, data) && multiset(Arrived(ps, id)) == multiset(cs)
    requires |cs| <= a.numChunks && |data| <= a.outputMtu && Unused(a, id)
    requires Prompt(ps, id, -1, a.tolerance) && OnlyFrame(ps, id)
    ensures FeedPackets(a, ps).1 == [data]
  {
    AloneRun(a, ps, id);
    AnyOrder(a, cs, ps, id, data);
  }
}
