/**
 * A run from the start in which pulling the clock back is noticed: dropping a
 * timed-out frame makes the room that saves a live one.  It takes frames of
 * three chunks; with at most two it is never noticed.
 */
module FragmentNoticed {
  import opened Bytes
  import opened Lists
  import opened FragmentModel
  import opened FragmentReference
  import opened FragmentRefinement
  import opened FragmentReduction

  /** What the constructor makes of its frame entries. */
  function Start(mtu: nat, numChunks: nat, entries: seq<Frame>): Assembler {
    Assembler(mtu, numChunks, |entries|, 0, [], entries)
  }

  ghost predicate EntriesOk(mtu: nat, entries: seq<Frame>) {
    0 < |entries| < MAX_CLOCK && forall i :: 0 <= i < |entries| ==> |entries[i].buffer| == mtu
  }

  lemma StartSim(mtu: nat, numChunks: nat, entries: seq<Frame>)
    requires EntriesOk(mtu, entries) && 0 < numChunks
    ensures Sim(Start(mtu, numChunks, entries), Ref(mtu, numChunks, |entries|, 0, []), 0)
    ensures Inv(Start(mtu, numChunks, entries))
  {
  }

  // ---- the packets ----

  const A1 := Chunk(1, 0, [7], false)
  const A2 := Chunk(1, 1, [8], false)
  const A3 := Chunk(1, 2, [9], true)
  const B := Chunk(2, 0, [0], false)
  const C := Chunk(3, 0, [0], false)

  /** Two frames begin, the first one goes on, a third begins, and the first one ends. */
  function FivePackets(): seq<seq<byte>> {
    [EncodeAll([A1, B]), [], EncodeAll([A2]), [], EncodeAll([C, A3])]
  }

  /** `n` empty packets first. */
  function After(n: nat, ps: seq<seq<byte>>): (r: seq<seq<byte>>)
    ensures |r| == n + |ps|
  {
    if n == 0 then ps else [[]] + After(n - 1, ps)
  }

  // ---- when the clock is pulled back ----

  lemma ChunkTime(a: Assembler, c: Chunk)
    requires Shape(a)
    ensures ProcessChunk(a, c).0.time == a.time
  {
    ObtainFinds(a, c.id);
    ObtainTime(a, c.id);
    hide Clash, Accept, Shape, Overwrite, Find, Obtain;
  }

  lemma ObtainTime(a: Assembler, id: nat)
    requires Shape(a)
    ensures Obtain(a, id).time == a.time
  {
  }

  lemma {:induction false} FeedTime(a: Assembler, cs: seq<Chunk>)
    requires Inv(a)
    ensures Feed(a, cs).0.time == a.time
    decreases |cs|
  {
    hide ProcessChunk, Shape;
    if cs != [] {
      ChunkKeepsInv(a, cs[0]);
      ChunkTime(a, cs[0]);
      FeedTime(ProcessChunk(a, cs[0]).0, cs[1..]);
    }
  }

  /** Up to the first time, the clock is pulled back exactly when it is at its maximum. */
  lemma {:induction false} FirstPurge(a: Assembler, ps: seq<seq<byte>>, i: nat)
    requires Inv(a) && i < |ps| && a.time + i <= MAX_CLOCK
    ensures Purges(a, ps)[i] <==> a.time + i == MAX_CLOCK
    decreases |ps|
  {
    hide Inv, Parse, ReduceTimes;
    var a1 := Feed(a, Parse(ps[0])).0;
    FeedTime(a, Parse(ps[0]));
    InvTimes(a1);
    TickKeepsInv(a1);
    if i > 0 {
      FirstPurge(Tick(a1), ps[1..], i - 1);
    }
  }

  // ---- chunks ----

  /** A chunk of a frame not held. */
  lemma Starts(r: Ref, c: Chunk)
    requires Ok(r) && Absent(r.frames, c.id) && End(c) <= r.mtu && r.numChunks > 1 && !Complete([c])
    ensures RefChunk(r, c) == (r.(frames := Room(r.numFrames, r.frames) + [RefFrame(c.id, r.time, [c])]), None)
  {
    hide Complete, Assemble;
    ObtainNew(r, c.id);
    KeepAll(r.frames, c.id);
    var fs, g := Room(r.numFrames, r.frames), RefFrame(c.id, r.time, []);
    var r1 := r.(frames := fs + [g]);
    assert fs + [g] + [] == fs + [g];
    AddAt(r1, fs, g, [], c);
    assert [] + [c] == [c] && LastEnd([]) == -1;
    assert fs + [RefFrame(c.id, r.time, [c])] + [] == fs + [RefFrame(c.id, r.time, [c])];
  }

  /** A chunk of a frame held and live. */
  lemma Continues(r: Ref, a: seq<RefFrame>, g: RefFrame, b: seq<RefFrame>, c: Chunk)
    requires r.frames == a + [g] + b && g.id == c.id && Absent(a, c.id) && Absent(b, c.id)
    requires LiveFrame(r, g) && End(c) <= r.mtu
    ensures RefChunk(r, c) == (r.(frames := a + Grown(r, g, c) + b), Out(g, c))
  {
    hide RefAdd, Grown, Out;
    AddAt(r, a, g, b, c);
    assert r.frames[|a|] == g;
  }

  lemma Pieces()
    ensures !Complete([A1]) && !Complete([B]) && !Complete([C]) && !Complete([A3])
    ensures !RefClash([A1], A2) && !Complete([A1] + [A2])
    ensures !RefClash([A1, A2], A3) && Complete([A1, A2] + [A3]) && Assemble([A1, A2] + [A3]) == [7, 8, 9]
  {
    assert LastEnd([A3]) == 3 && !Covered([A3], 0);
    var cs := [A1, A2] + [A3];
    assert cs == [A1, A2, A3] && LastEnd(cs) == 3;
    assert Covers(cs[0], 0) && Covers(cs[1], 1) && Covers(cs[2], 2);
  }

  // ---- the run of the reference ----

  function At(t: nat, frames: seq<RefFrame>): Ref {
    Ref(3, 3, 2, t, frames)
  }

  /** The first packet. */
  lemma TwoBegin(t: nat)
    ensures RefFeed(At(t, []), [A1, B]) == (At(t, [RefFrame(1, t, [A1]), RefFrame(2, t, [B])]), [])
  {
    hide RefChunk, Complete;
    Pieces();
    var f1, f2 := RefFrame(1, t, [A1]), RefFrame(2, t, [B]);
    Starts(At(t, []), A1);
    assert [] + [f1] == [f1] && [f1] + [f2] == [f1, f2];
    Starts(At(t, [f1]), B);
    FeedTwo(At(t, []), A1, B);
  }

  /** The third packet, two ticks later. */
  lemma OneGoesOn(t: nat)
    ensures RefFeed(At(t + 2, [RefFrame(1, t, [A1]), RefFrame(2, t, [B])]), [A2])
            == (At(t + 2, [RefFrame(1, t + 2, [A1, A2]), RefFrame(2, t, [B])]), [])
  {
    hide RefChunk, Complete, RefClash;
    Pieces();
    var f1, f2, f1' := RefFrame(1, t, [A1]), RefFrame(2, t, [B]), RefFrame(1, t + 2, [A1, A2]);
    var r := At(t + 2, [f1, f2]);
    assert [] + [f1] + [f2] == [f1, f2] && [] + [f1'] + [f2] == [f1', f2] && [A1] + [A2] == [A1, A2];
    Continues(r, [], f1, [f2], A2);
    FeedOneChunk(r, A2);
  }

  /** The clock is pulled back at the end of the fourth packet: the second frame goes. */
  lemma OneDropped(t: nat, f1: RefFrame, f2: RefFrame)
    requires f1.time == t + 2 && f2.time == t
    ensures RefTick(At(t + 3, [f1, f2]), true) == At(t + 4, [f1])
  {
    var r := At(t + 3, [f1, f2]);
    assert r.frames[1..] == [f2] && RefLive(r, [f2]) == RefLive(r, [f2][1..]);
  }

  /** With room for the third frame, the first one is still there when its end comes. */
  lemma WithRoom(t: nat)
    ensures RefFeed(At(t + 4, [RefFrame(1, t + 2, [A1, A2])]), [C, A3]).1 == [[7, 8, 9]]
  {
    hide RefChunk, Complete, RefClash, Assemble;
    Pieces();
    var f1, f3 := RefFrame(1, t + 2, [A1, A2]), RefFrame(3, t + 4, [C]);
    Starts(At(t + 4, [f1]), C);
    assert [f1] + [f3] == [f1, f3] && [] + [f1] + [f3] == [f1, f3];
    Continues(At(t + 4, [f1, f3]), [], f1, [f3], A3);
    FeedTwo(At(t + 4, [f1]), C, A3);
  }

  /** Without, the third frame has pushed it out. */
  lemma WithoutRoom(t: nat)
    ensures RefFeed(At(t + 4, [RefFrame(1, t + 2, [A1, A2]), RefFrame(2, t, [B])]), [C, A3]).1 == []
  {
    hide RefChunk, Complete, RefClash, Assemble;
    Pieces();
    var f1, f2, f3 := RefFrame(1, t + 2, [A1, A2]), RefFrame(2, t, [B]), RefFrame(3, t + 4, [C]);
    Starts(At(t + 4, [f1, f2]), C);
    assert [f1, f2][1..] == [f2] && [f2] + [f3] == [f2, f3];
    Starts(At(t + 4, [f2, f3]), A3);
    FeedTwo(At(t + 4, [f1, f2]), C, A3);
  }

  lemma FeedOneChunk(r: Ref, c: Chunk)
    ensures var (r', o) := RefChunk(r, c); RefFeed(r, [c]) == (r', if o.Some? then [o.value] else [])
  {
    hide RefChunk;
    var (r', o) := RefChunk(r, c);
    assert [c][1..] == [] && RefFeed(r', []) == (r', []);
    assert o.Some? ==> [o.value] + [] == [o.value];
  }

  lemma FeedTwo(r: Ref, c: Chunk, e: Chunk)
    requires RefChunk(r, c).1 == None
    ensures RefFeed(r, [c, e]) == RefFeed(RefChunk(r, c).0, [e])
    ensures
      var (r', o) := RefChunk(RefChunk(r, c).0, e);
      RefFeed(r, [c, e]) == (r', if o.Some? then [o.value] else [])
  {
    hide RefChunk;
    assert [c, e][1..] == [e];
    FeedOneChunk(RefChunk(r, c).0, e);
  }

  /** One packet, and then the others. */
  lemma FeedNext(r: Ref, p: seq<byte>, cs: seq<Chunk>, ps: seq<seq<byte>>, purge: seq<bool>)
    requires |purge| == 1 + |ps| && Parse(p) == cs && RefFeed(r, cs).1 == []
    ensures RefFeedPackets(r, [p] + ps, purge).1
            == RefFeedPackets(RefTick(RefFeed(r, cs).0, purge[0]), ps, purge[1..]).1
  {
    hide RefTick, RefFeed, Parse;
    assert ([p] + ps)[1..] == ps;
  }

  lemma FeedLast(r: Ref, p: seq<byte>, purge: seq<bool>)
    requires |purge| == 1
    ensures RefFeedPackets(r, [p], purge).1 == RefFeed(r, Parse(p)).1
  {
    hide RefTick, RefFeed, Parse;
    assert [p][1..] == [];
  }

  /** The five packets from clock `t` on, with a drop at the end of the fourth or without. */
  lemma FiveFed(t: nat, purge: seq<bool>)
    requires |purge| == 5 && !purge[0] && !purge[1] && !purge[2]
    ensures RefFeedPackets(At(t, []), FivePackets(), purge).1 == if purge[3] then [[7, 8, 9]] else []
  {
    hide RefFeed, RefFeedPackets, Parse, EncodeAll, Complete;
    ParseEncode([A1, B]);
    ParseEncode([A2]);
    ParseEncode([C, A3]);
    var ps := FivePackets();
    var f1, f2, f1' := RefFrame(1, t, [A1]), RefFrame(2, t, [B]), RefFrame(1, t + 2, [A1, A2]);
    TwoBegin(t);
    assert ps == [ps[0]] + ps[1..] && ps[1..] == [ps[1]] + ps[2..] && ps[2..] == [ps[2]] + ps[3..];
    assert ps[3..] == [ps[3]] + ps[4..] && ps[4..] == [ps[4]];
    FeedNext(At(t, []), ps[0], [A1, B], ps[1..], purge);
    NoChunks(At(t + 1, [f1, f2]));
    FeedNext(At(t + 1, [f1, f2]), ps[1], [], ps[2..], purge[1..]);
    OneGoesOn(t);
    FeedNext(At(t + 2, [f1, f2]), ps[2], [A2], ps[3..], purge[1..][1..]);
    NoChunks(At(t + 3, [f1', f2]));
    FeedNext(At(t + 3, [f1', f2]), ps[3], [], ps[4..], purge[1..][1..][1..]);
    var r := RefTick(At(t + 3, [f1', f2]), purge[3]);
    FeedLast(r, ps[4], purge[1..][1..][1..][1..]);
    if purge[3] {
      OneDropped(t, f1', f2);
      WithRoom(t);
    } else {
      WithoutRoom(t);
    }
  }

  lemma NoChunks(r: Ref)
    ensures Parse([]) == [] && RefFeed(r, []) == (r, [])
  {
  }

  lemma {:induction false} IdleFed(t: nat, n: nat, ps: seq<seq<byte>>, purge: seq<bool>)
    requires |purge| == n + |ps|
    ensures RefFeedPackets(At(t, []), After(n, ps), purge).1 == RefFeedPackets(At(t + n, []), ps, purge[n..]).1
    decreases n
  {
    if n > 0 {
      hide RefFeedPackets, RefFeed, Parse;
      NoChunks(At(t, []));
      FeedNext(At(t, []), [], [], After(n - 1, ps), purge);
      IdleFed(t + 1, n - 1, ps, purge[1..]);
      assert purge[1..][n - 1..] == purge[n..];
    } else {
      assert purge[0..] == purge;
    }
  }

  /**
   * From the start, after `n` empty packets, the same five packets: the first
   * frame is delivered if the clock is at its maximum at the end of the fourth
   * of them, and lost if the clock is less.
   */
  lemma ReductionNoticed(n: nat, entries: seq<Frame>)
    requires |entries| == 2 && EntriesOk(3, entries) && n + 3 <= MAX_CLOCK
    ensures Inv(Start(3, 3, entries))
    ensures FeedPackets(Start(3, 3, entries), After(n, FivePackets())).1
            == if n + 3 == MAX_CLOCK then [[7, 8, 9]] else []
  {
    hide Sim, Inv, FeedPackets, RefFeedPackets, Purges, FivePackets, After;
    var a, ps := Start(3, 3, entries), After(n, FivePackets());
    StartSim(3, 3, entries);
    RefinesReference(a, At(0, []), 0, ps);
    assert |FivePackets()| == 5 by { FiveLong(); }
    var purge := Purges(a, ps);
    FirstPurge(a, ps, n);
    FirstPurge(a, ps, n + 1);
    FirstPurge(a, ps, n + 2);
    FirstPurge(a, ps, n + 3);
    IdleFed(0, n, FivePackets(), purge);
    FiveFed(n, purge[n..]);
  }

  lemma FiveLong()
    ensures |FivePackets()| == 5
  {
  }

  // ---- frames of at most two chunks ----

  ghost predicate Ascending(fs: seq<RefFrame>) {
    forall i, j :: 0 <= i < j < |fs| ==> fs[i].time <= fs[j].time
  }

  /** The frames are in the order of their times, and each can take another chunk. */
  ghost predicate InOrder(r: Ref) {
    Ascending(r.frames) && forall g :: g in r.frames ==> 0 < |g.chunks| < r.numChunks && g.time <= r.time
  }

  /** The oldest frame is the one to time out first. */
  lemma InOrderKeepsLive(r: Ref, c: Chunk)
    requires InOrder(r)
    ensures !Loses(r, c)
  {
    forall g | g in r.frames ensures r.frames[0].time <= g.time {
      var i :| 0 <= i < |r.frames| && r.frames[i] == g;
    }
  }

  lemma {:induction false} FilterTimes(fs: seq<RefFrame>, p: RefFrame -> bool)
    requires Ascending(fs)
    ensures Ascending(Filter(fs, p))
  {
    if fs != [] {
      FilterTimes(fs[1..], p);
      var rest := Filter(fs[1..], p);
      forall k | 0 <= k < |rest| ensures fs[0].time <= rest[k].time {
        FilterIn(fs[1..], p, rest[k]);
      }
    }
  }

  lemma ChunkInOrder(r: Ref, c: Chunk)
    requires Ok(r) && InOrder(r) && 0 < r.numChunks <= 2
    ensures InOrder(RefChunk(r, c).0)
  {
    hide RefClash, Complete, Assemble, RefObtain, RefAdd, InOrder;
    if End(c) <= r.mtu {
      if HasLive(r, c.id) {
        var k := ObtainLive(r, c.id);
        SecondChunk(r, k, c);
      } else {
        ObtainNew(r, c.id);
        FirstChunk(r, Room(r.numFrames, Filter(r.frames, NotId(c.id))), c);
      }
    }
  }

  /** The second chunk of a frame is its last, one way or the other. */
  lemma SecondChunk(r: Ref, k: nat, c: Chunk)
    requires Ok(r) && InOrder(r) && 0 < r.numChunks <= 2 && k < |r.frames| && r.frames[k].id == c.id
    ensures RefFind(r.frames, c.id) == k && InOrder(RefAdd(r, k, c).0)
  {
    hide RefClash, Complete, Assemble, RefAdd;
    var a, g, b := r.frames[..k], r.frames[k], r.frames[k + 1..];
    Around(r.frames, k);
    AddAt(r, a, g, b, c);
    assert g in r.frames;
    assert a + [] + b == a + b;
    AscendingWithout(r.frames, k);
    hide Ascending;
  }

  lemma AscendingWithout(fs: seq<RefFrame>, k: nat)
    requires Ascending(fs) && k < |fs|
    ensures Ascending(fs[..k] + fs[k + 1..]) && forall f :: f in fs[..k] + fs[k + 1..] ==> f in fs
  {
    var gs := fs[..k] + fs[k + 1..];
    forall i | 0 <= i < |gs| ensures gs[i] == fs[if i < k then i else i + 1] {}
  }

  /** A first chunk makes the newest frame. */
  lemma FirstChunk(r: Ref, fs: seq<RefFrame>, c: Chunk)
    requires Ok(r) && InOrder(r) && 0 < r.numChunks && fs == Room(r.numFrames, Filter(r.frames, NotId(c.id)))
    ensures
      var r1 := r.(frames := fs + [RefFrame(c.id, r.time, [])]);
      RefFind(r1.frames, c.id) == |fs| && InOrder(RefAdd(r1, |fs|, c).0)
  {
    hide RefClash, Complete, Assemble, RefAdd, Room, Filter, InOrder;
    var g := RefFrame(c.id, r.time, []);
    OthersInOrder(r, fs, c.id);
    assert fs + [g] == fs + [g] + [];
    var r1 := r.(frames := fs + [g]);
    AddAt(r1, fs, g, [], c);
    var h := Grown(r1, g, c);
    assert [] + [c] == [c];
    assert h == [] || h == [RefFrame(c.id, r.time, [c])];
    assert fs + h + [] == fs + h;
    NewestInOrder(r, fs, c);
    assert fs + [] == fs;
  }

  lemma OthersInOrder(r: Ref, fs: seq<RefFrame>, id: nat)
    requires Ok(r) && InOrder(r) && fs == Room(r.numFrames, Filter(r.frames, NotId(id)))
    ensures InOrder(r.(frames := fs)) && Absent(fs, id)
  {
    FilterTimes(r.frames, NotId(id));
    forall f | f in fs ensures f in r.frames && f.id != id { FilterIn(r.frames, NotId(id), f); }
  }

  lemma NewestInOrder(r: Ref, fs: seq<RefFrame>, c: Chunk)
    requires InOrder(r.(frames := fs))
    ensures 1 < r.numChunks ==> InOrder(r.(frames := fs + [RefFrame(c.id, r.time, [c])]))
  {
    assert forall i :: 0 <= i < |fs| ==> fs[i] in fs;
  }

  lemma {:induction false} FeedInOrder(r: Ref, cs: seq<Chunk>)
    requires Ok(r) && InOrder(r) && 0 < r.numChunks <= 2
    ensures NoLoss(r, cs) && Ok(RefFeed(r, cs).0) && InOrder(RefFeed(r, cs).0) && RefFeed(r, cs).0.numChunks == r.numChunks
    decreases |cs|
  {
    hide Ok, InOrder, RefChunk, Loses;
    if cs != [] {
      InOrderKeepsLive(r, cs[0]);
      ChunkInOrder(r, cs[0]);
      ChunkOk(r, cs[0]);
      ChunkClock(r, cs[0]);
      FeedInOrder(RefChunk(r, cs[0]).0, cs[1..]);
    }
  }

  lemma {:induction false} RunInOrder(r: Ref, ps: seq<seq<byte>>)
    requires Ok(r) && InOrder(r) && 0 < r.numChunks <= 2
    ensures NeverLoses(r, ps)
    decreases |ps|
  {
    hide NoLoss, RefFeed, Parse;
    if ps != [] {
      FeedInOrder(r, Parse(ps[0]));
      RunInOrder(RefTick(RefFeed(r, Parse(ps[0])).0, false), ps[1..]);
    }
  }

  /**
   * With room for at most two chunks in a frame, pulling the clock back is never
   * noticed: from the start, the assembler delivers what the reference delivers
   * that never drops a frame.
   */
  lemma TwoChunksUnnoticed(mtu: nat, numChunks: nat, entries: seq<Frame>, ps: seq<seq<byte>>)
    requires EntriesOk(mtu, entries) && 0 < numChunks <= 2
    ensures Inv(Start(mtu, numChunks, entries))
    ensures FeedPackets(Start(mtu, numChunks, entries), ps).1
            == RefFeedPackets(Ref(mtu, numChunks, |entries|, 0, []), ps, Never(|ps|)).1
  {
    hide Sim, Inv, FeedPackets, RefFeedPackets, NeverLoses;
    StartSim(mtu, numChunks, entries);
    RunInOrder(Ref(mtu, numChunks, |entries|, 0, []), ps);
    ClockUnnoticed(Start(mtu, numChunks, entries), Ref(mtu, numChunks, |entries|, 0, []), 0, ps);
  }
}
