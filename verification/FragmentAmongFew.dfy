/**
 * A frame is not pushed out as long as fewer chunks of other frames come than
 * there are frame entries.
 */
module FragmentAmongFew {
  import opened Bytes
  import opened Lists
  import opened FragmentModel
  import opened FragmentReference
  import opened FragmentRefinement
  import opened FragmentReduction
  import opened FragmentRoundTrip
  import opened FragmentPieces
  import opened FragmentAnyOrder

  /** At most `m` frames have been begun since frame `id` was. */
  ghost predicate Behind(r: Ref, id: nat, m: nat) {
    forall k :: 0 <= k < |r.frames| && r.frames[k].id == id && LiveFrame(r, r.frames[k]) ==> |r.frames| - 1 - k <= m
  }

  lemma BehindAround(r: Ref, a: seq<RefFrame>, h: seq<RefFrame>, h': seq<RefFrame>, b: seq<RefFrame>, id: nat, m: nat)
    requires r.frames == a + h + b && Behind(r, id, m) && |h'| <= |h| <= 1
    requires h' != [] ==> h'[0].id != id || (h[0].id == id && LiveFrame(r, h[0]))
    ensures Behind(r.(frames := a + h' + b), id, m)
  {
    var fs' := a + h' + b;
    forall k | 0 <= k < |fs'| && fs'[k].id == id && LiveFrame(r, fs'[k]) ensures |fs'| - 1 - k <= m {
      if k < |a| {
        assert r.frames[k] == fs'[k];
      } else if k < |a| + |h'| {
        assert r.frames[|a|] == h[0];
      } else {
        var j := k - |h'| + |h|;
        assert r.frames[j] == b[k - |a| - |h'|] == fs'[k];
      }
    }
  }

  lemma BehindLive(r: Ref, c: Chunk, id: nat, m: nat)
    requires Ok(r) && Behind(r, id, m) && HasLive(r, c.id) && End(c) <= r.mtu
    ensures Behind(RefChunk(r, c).0, id, m)
  {
    hide RefAdd, RefObtain, Behind, Grown, Out;
    var k := ObtainLive(r, c.id);
    Around(r.frames, k);
    var a, g, b := r.frames[..k], r.frames[k], r.frames[k + 1..];
    AddAround(r, a, g, b, c);
    GrownSame(r, r, g, c);
    GrownShort(r, g, c);
    BehindAround(r, a, [g], Grown(r, g, c), b, id, m);
  }

  lemma GrownShort(r: Ref, g: RefFrame, c: Chunk)
    ensures |Grown(r, g, c)| <= 1
  {
  }

  lemma BehindNew(r: Ref, c: Chunk, id: nat, m: nat)
    requires Ok(r) && Behind(r, id, m) && !HasLive(r, c.id) && End(c) <= r.mtu
    ensures Behind(RefChunk(r, c).0, id, if c.id == id then m else m + 1)
  {
    hide RefChunk, Filter, Grown;
    NewChunk(r, c);
    var fs, h := Filter(r.frames, NotId(c.id)), Grown(r, RefFrame(c.id, r.time, []), c);
    GrownSame(r, r, RefFrame(c.id, r.time, []), c);
    GrownShort(r, RefFrame(c.id, r.time, []), c);
    BehindFilter(r, c.id, id, m);
    var room := Room(r.numFrames, fs);
    var fs' := room + h;
    forall k | 0 <= k < |fs'| && fs'[k].id == id && LiveFrame(r, fs'[k])
      ensures |fs'| - 1 - k <= if c.id == id then m else m + 1
    {
      if k < |room| {
        assert fs'[k] == fs[k + |fs| - |room|];
        FilterIn(r.frames, NotId(c.id), fs[k + |fs| - |room|]);
      }
    }
  }

  lemma BehindFilter(r: Ref, x: nat, id: nat, m: nat)
    requires Ok(r) && Behind(r, id, m) && !HasLive(r, x)
    ensures Behind(r.(frames := Filter(r.frames, NotId(x))), id, m)
  {
    hide Filter, Behind;
    var k := RefFind(r.frames, x);
    if k < |r.frames| {
      Around(r.frames, k);
      var a, g, b := r.frames[..k], r.frames[k], r.frames[k + 1..];
      WithoutOne(a, g, b);
      BehindAround(r, a, [g], [], b, id, m);
      assert a + [] + b == a + b;
    } else {
      KeepAll(r.frames, x);
      assert r.(frames := r.frames) == r;
    }
  }

  lemma BehindChunk(r: Ref, c: Chunk, id: nat, m: nat)
    requires Ok(r) && Behind(r, id, m)
    ensures Behind(RefChunk(r, c).0, id, if c.id == id then m else m + 1)
  {
    if End(c) > r.mtu {
      TooLong(r, c);
    } else if HasLive(r, c.id) {
      BehindLive(r, c, id, m);
    } else {
      BehindNew(r, c, id, m);
    }
  }

  lemma BehindTick(r: Ref, purge: bool, id: nat, m: nat)
    requires Ok(r) && Behind(r, id, m)
    ensures Behind(RefTick(r, purge), id, m)
  {
    hide Filter;
    if purge {
      var q := From(r.time - r.numFrames);
      LiveIsFilter(r, r.frames);
      var fs := Filter(r.frames, q);
      FilterDistinct(r.frames, q);
      forall k | 0 <= k < |fs| && fs[k].id == id ensures |fs| - 1 - k <= m {
        FilterIn(r.frames, q, fs[k]);
        var j :| 0 <= j < |r.frames| && r.frames[j] == fs[k];
        BehindOf(r.frames, q, j, fs, k);
      }
    }
  }

  /** Leaving frames out does not put more behind one that stays. */
  lemma BehindOf(fs: seq<RefFrame>, q: RefFrame -> bool, j: nat, gs: seq<RefFrame>, k: nat)
    requires gs == Filter(fs, q) && j < |fs| && k < |gs| && fs[j] == gs[k] && q(fs[j]) && DistinctIds(gs)
    ensures |gs| - 1 - k <= |fs| - 1 - j
  {
    hide Filter, DistinctIds;
    FilterAround(fs, q, j);
    var i := |Filter(fs[..j], q)|;
    assert gs[i] == gs[k];
    SameIdSamePlace(gs, i, k);
  }

  lemma FilterAround(fs: seq<RefFrame>, q: RefFrame -> bool, j: nat)
    requires j < |fs| && q(fs[j])
    ensures Filter(fs, q) == Filter(fs[..j], q) + [fs[j]] + Filter(fs[j + 1..], q)
  {
    var a, g, b := fs[..j], [fs[j]], fs[j + 1..];
    assert Filter(g, q) == g by { assert g[1..] == []; }
    hide Filter;
    assert fs == (a + g) + b;
    FilterAppend(a + g, b, q);
    FilterAppend(a, g, q);
  }

  lemma SameIdSamePlace(fs: seq<RefFrame>, i: nat, k: nat)
    requires DistinctIds(fs) && i < |fs| && k < |fs| && fs[i].id == fs[k].id
    ensures i == k
  {
  }

  /** How many chunks of other frames there are. */
  function Foreign(cs: seq<Chunk>, id: nat): nat {
    |cs| - |Own(cs, id)|
  }

  function ForeignIn(ps: seq<seq<byte>>, id: nat): nat {
    if ps == [] then 0 else Foreign(Parse(ps[0]), id) + ForeignIn(ps[1..], id)
  }

  lemma {:induction false} FewFeed(r: Ref, cs: seq<Chunk>, id: nat, m: nat)
    requires Ok(r) && Behind(r, id, m) && m + Foreign(cs, id) < r.numFrames
    ensures RefSparedFeed(r, cs, id) && Behind(RefFeed(r, cs).0, id, m + Foreign(cs, id))
    decreases |cs|
  {
    hide RefChunk;
    if cs != [] {
      var c := cs[0];
      assert Foreign(cs, id) == Foreign(cs[1..], id) + if c.id == id then 0 else 1;
      assert !RefPushes(r, c, id);
      BehindChunk(r, c, id, m);
      ChunkOk(r, c);
      ChunkClock(r, c);
      FewFeed(RefChunk(r, c).0, cs[1..], id, if c.id == id then m else m + 1);
    }
  }

  lemma {:induction false} FewSpared(r: Ref, ps: seq<seq<byte>>, purge: seq<bool>, id: nat, m: nat)
    requires Ok(r) && Behind(r, id, m) && |purge| == |ps| && m + ForeignIn(ps, id) < r.numFrames
    ensures RefSpared(r, ps, purge, id)
    decreases |ps|
  {
    hide Ok, Behind, RefSparedFeed, RefFeed, RefTick, Foreign, Parse;
    if ps != [] {
      var cs := Parse(ps[0]);
      FewFeed(r, cs, id, m);
      FeedOk(r, cs);
      FeedClock(r, cs);
      var r1 := RefFeed(r, cs).0;
      TickOk(r1, purge[0]);
      TickClock(r1, purge[0]);
      BehindTick(r1, purge[0], id, m + Foreign(cs, id));
      FewSpared(RefTick(r1, purge[0]), ps[1..], purge[1..], id, m + Foreign(cs, id));
    }
  }

  /**
   * The same with a condition on the packets alone: fewer chunks of other
   * frames than there are frame entries.
   */
  lemma AnyOrderAmongFew(a: Assembler, cs: seq<Chunk>, ps: seq<seq<byte>>, id: nat, data: seq<byte>)
    requires Inv(a) && Whole(cs, id, data) && multiset(Arrived(ps, id)) == multiset(cs)
    requires |cs| <= a.numChunks && |data| <= a.outputMtu && Unused(a, id)
    requires Prompt(ps, id, -1, a.tolerance) && ForeignIn(ps, id) < a.tolerance
    ensures Delivered(a, ps, id) == [data]
  {
    var r, purge := Abstract(a), Purges(a, ps);
    AbstractSim(a);
    UnusedWaits(a, r, 0, id);
    SimOwn(a, r, 0, ps, id);
    assert Behind(r, id, 0) by { assert forall k :: 0 <= k < |r.frames| ==> r.frames[k] in r.frames; }
    FewSpared(r, ps, purge, id, 0);
    ArrivedWhole(r, cs, ps, purge, id, data);
  }
}
