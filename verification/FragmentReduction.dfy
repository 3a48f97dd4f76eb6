/**
 * When pulling the clock back can be noticed.
 *
 * reduce_times also drops the frames that have timed out.  That makes room, and
 * room decides whether a new frame pushes out a live one.  So the assembler can
 * be told from one that never drops a timed-out frame, and this is exactly when:
 * it never can, whatever the moments at which frames are dropped, if and only if
 * no new frame pushes out a live frame while a frame is held that had already
 * timed out when the packet came.
 */
module FragmentReduction {
  import opened Bytes
  import opened Lists
  import opened FragmentModel
  import opened FragmentReference
  import opened FragmentRefinement

  // ---- frames by time and by id ----

  function From(t: int): RefFrame -> bool {
    (g: RefFrame) => g.time >= t
  }

  function NotId(id: nat): RefFrame -> bool {
    (g: RefFrame) => g.id != id
  }

  predicate DistinctIds(fs: seq<RefFrame>) {
    forall i, j :: 0 <= i < j < |fs| ==> fs[i].id != fs[j].id
  }

  predicate Absent(fs: seq<RefFrame>, id: nat) {
    forall g :: g in fs ==> g.id != id
  }

  /** What every reference state keeps: distinct ids, and no more frames than there are entries. */
  ghost predicate Ok(r: Ref) {
    0 < r.numFrames && |r.frames| <= r.numFrames && DistinctIds(r.frames)
  }

  predicate LiveFrame(r: Ref, g: RefFrame) {
    r.time - g.time <= r.numFrames
  }

  /** Timed out already at the end of the packet before. */
  predicate Stale(r: Ref, g: RefFrame) {
    r.time - 1 - g.time > r.numFrames
  }

  function Lives(r: Ref): seq<RefFrame> {
    RefLive(r, r.frames)
  }

  lemma {:induction false} LiveIsFilter(r: Ref, fs: seq<RefFrame>)
    ensures RefLive(r, fs) == Filter(fs, From(r.time - r.numFrames))
  {
    if fs != [] {
      LiveIsFilter(r, fs[1..]);
    }
  }

  lemma {:induction false} FilterDistinct(fs: seq<RefFrame>, p: RefFrame -> bool)
    requires DistinctIds(fs)
    ensures DistinctIds(Filter(fs, p))
  {
    if fs != [] {
      FilterDistinct(fs[1..], p);
      var rest := Filter(fs[1..], p);
      forall k | 0 <= k < |rest| ensures rest[k].id != fs[0].id {
        FilterIn(fs[1..], p, rest[k]);
      }
    }
  }

  lemma FindAt(a: seq<RefFrame>, g: RefFrame, b: seq<RefFrame>)
    requires Absent(a, g.id)
    ensures RefFind(a + [g] + b, g.id) == |a|
  {
    var fs := a + [g] + b;
    assert fs[|a|] == g;
    assert forall i :: 0 <= i < |a| ==> fs[i] == a[i] && a[i] in a;
  }

  /** A list with distinct ids, around one of its frames. */
  lemma Around(fs: seq<RefFrame>, k: nat)
    requires DistinctIds(fs) && k < |fs|
    ensures fs == fs[..k] + [fs[k]] + fs[k + 1..]
    ensures Absent(fs[..k], fs[k].id) && Absent(fs[k + 1..], fs[k].id)
  {
  }

  lemma KeepAll(a: seq<RefFrame>, id: nat)
    requires Absent(a, id)
    ensures Filter(a, NotId(id)) == a
  {
    FilterAll(a, NotId(id));
  }

  lemma WithoutOne(a: seq<RefFrame>, g: RefFrame, b: seq<RefFrame>)
    requires Absent(a, g.id) && Absent(b, g.id)
    ensures Filter(a + [g] + b, NotId(g.id)) == a + b
  {
    hide Filter, Absent;
    var p := NotId(g.id);
    FilterAppend(a + [g], b, p);
    FilterAppend(a, [g], p);
    KeepAll(a, g.id);
    KeepAll(b, g.id);
    assert Filter([g], p) == [] by { FilterNone([g], p); }
    assert a + [] == a;
  }

  lemma DropOne(a: seq<RefFrame>, g: RefFrame, b: seq<RefFrame>)
    ensures Drop(a + [g] + b, |a|) == a + b
  {
    var fs := a + [g] + b;
    assert fs[..|a|] == a && fs[|a| + 1..] == b;
  }

  // ---- one chunk ----

  /** The list after the oldest frame was pushed out if there was no room. */
  function Room(n: nat, fs: seq<RefFrame>): seq<RefFrame>
    requires n > 0
  {
    if |fs| >= n then fs[1..] else fs
  }

  ghost predicate HasLive(r: Ref, id: nat) {
    exists g :: g in r.frames && g.id == id && LiveFrame(r, g)
  }

  lemma ObtainNew(r: Ref, id: nat)
    requires Ok(r) && !HasLive(r, id)
    ensures RefObtain(r, id) ==
      r.(frames := Room(r.numFrames, Filter(r.frames, NotId(id))) + [RefFrame(id, r.time, [])])
  {
    var k := RefFind(r.frames, id);
    if k < |r.frames| {
      Around(r.frames, k);
      WithoutOne(r.frames[..k], r.frames[k], r.frames[k + 1..]);
      DropOne(r.frames[..k], r.frames[k], r.frames[k + 1..]);
      assert r.frames[k] in r.frames;
    } else {
      FilterAll(r.frames, NotId(id));
    }
  }

  lemma ObtainLive(r: Ref, id: nat) returns (k: nat)
    requires Ok(r) && HasLive(r, id)
    ensures RefObtain(r, id) == r && k < |r.frames| && r.frames[k].id == id && LiveFrame(r, r.frames[k])
  {
    var g :| g in r.frames && g.id == id && LiveFrame(r, g);
    k :| 0 <= k < |r.frames| && r.frames[k] == g;
    Around(r.frames, k);
    FindAt(r.frames[..k], g, r.frames[k + 1..]);
  }

  /** What becomes of the frame the chunk belongs to. */
  ghost function Grown(r: Ref, g: RefFrame, c: Chunk): seq<RefFrame> {
    var cs := g.chunks + [c];
    if RefClash(g.chunks, c) || Complete(cs) || |cs| == r.numChunks then [] else [RefFrame(c.id, r.time, cs)]
  }

  ghost function Out(g: RefFrame, c: Chunk): Option<seq<byte>> {
    var cs := g.chunks + [c];
    if !RefClash(g.chunks, c) && Complete(cs) then Some(Assemble(cs)) else None
  }

  lemma AddAt(r: Ref, a: seq<RefFrame>, g: RefFrame, b: seq<RefFrame>, c: Chunk)
    requires r.frames == a + [g] + b && g.id == c.id && Absent(a, c.id) && Absent(b, c.id)
    ensures RefFind(r.frames, c.id) == |a|
    ensures RefAdd(r, |a|, c) == (r.(frames := a + Grown(r, g, c) + b), Out(g, c))
  {
    hide RefClash, Complete, Assemble;
    FindAt(a, g, b);
    DropOne(a, g, b);
    assert a + [] + b == a + b;
    assert forall h: RefFrame :: r.frames[|a| := h] == a + [h] + b;
  }

  /** A chunk cannot belong to a frame of which the chunks `cs` have come. */
  ghost predicate Contradicts(cs: seq<Chunk>, c: Chunk) {
    || (exists i, x: nat :: 0 <= i < |cs| && Covers(cs[i], x) && Covers(c, x))
    || (LastEnd(cs) >= 0 && (c.last || End(c) > LastEnd(cs)))
    || (c.last && exists i :: 0 <= i < |cs| && End(cs[i]) > End(c))
  }

  /** A frame is given up, and nothing else is, when a chunk contradicts it or takes its last chunk entry in vain. */
  lemma GivenUp(r: Ref, a: seq<RefFrame>, g: RefFrame, b: seq<RefFrame>, c: Chunk)
    requires r.frames == a + [g] + b && g.id == c.id && Absent(a, c.id) && Absent(b, c.id)
    requires LiveFrame(r, g) && End(c) <= r.mtu
    requires Contradicts(g.chunks, c) || (|g.chunks| + 1 == r.numChunks && !Complete(g.chunks + [c]))
    ensures RefChunk(r, c) == (r.(frames := a + b), None)
  {
    hide Complete, Assemble;
    if Contradicts(g.chunks, c) {
      ContradictionClashes(g.chunks, c);
    }
    AddAt(r, a, g, b, c);
    assert r.frames[|a|] == g && a + [] + b == a + b;
  }

  lemma ContradictionClashes(cs: seq<Chunk>, c: Chunk)
    requires Contradicts(cs, c)
    ensures RefClash(cs, c)
  {
    if i, x: nat :| 0 <= i < |cs| && Covers(cs[i], x) && Covers(c, x) {
      assert Overlap(cs[i].start, |cs[i].data|, c.start, |c.data|);
    }
  }

  /**
   * `p` has dropped the frames older than `t` at some point, and `n` never has
   * dropped any: `p` holds what `n` holds from time `t` on, and before that
   * timed-out frames that `n` has pushed out.
   */
  ghost predicate Rel(p: Ref, n: Ref, x: seq<RefFrame>, t: int) {
    && p == n.(frames := p.frames) && Ok(p) && Ok(n)
    && p.frames == x + Filter(n.frames, From(t))
    && t <= n.time - 1 - n.numFrames
    && (forall g :: g in x ==> !LiveFrame(n, g))
  }

  lemma RelLives(p: Ref, n: Ref, x: seq<RefFrame>, t: int)
    requires Rel(p, n, x, t)
    ensures Lives(p) == Lives(n)
  {
    hide Filter;
    var l := From(n.time - n.numFrames);
    LiveIsFilter(p, p.frames);
    LiveIsFilter(n, n.frames);
    FilterAppend(x, Filter(n.frames, From(t)), l);
    FilterNone(x, l);
    FilterAbsorb(n.frames, From(t), l);
    assert [] + Filter(n.frames, l) == Filter(n.frames, l);
  }

  lemma RelHasLive(p: Ref, n: Ref, x: seq<RefFrame>, t: int, id: nat)
    requires Rel(p, n, x, t)
    ensures HasLive(p, id) <==> HasLive(n, id)
  {
    if HasLive(p, id) {
      var g :| g in p.frames && g.id == id && LiveFrame(p, g);
      FilterIn(n.frames, From(t), g);
    }
    if HasLive(n, id) {
      var g :| g in n.frames && g.id == id && LiveFrame(n, g);
      FilterIn(n.frames, From(t), g);
      assert g in p.frames;
    }
  }

  /**
   * The chunk starts a new frame, there is no free entry, and the oldest frame,
   * which has to go, is live, although a frame is held that had timed out when
   * the packet came.
   */
  ghost predicate Loses(n: Ref, c: Chunk) {
    && End(c) <= n.mtu && Absent(n.frames, c.id)
    && |n.frames| >= n.numFrames > 0 && LiveFrame(n, n.frames[0])
    && exists g :: g in n.frames && Stale(n, g)
  }

  /** Making room on both sides: `x'` is what then comes first in `p`. */
  lemma RoomRel(n: Ref, fs: seq<RefFrame>, x: seq<RefFrame>, t: int) returns (x': seq<RefFrame>)
    requires n.numFrames > 0 && |x + Filter(fs, From(t))| <= n.numFrames && |fs| <= n.numFrames
    requires t <= n.time - 1 - n.numFrames && forall g :: g in x ==> !LiveFrame(n, g)
    requires |fs| == n.numFrames && LiveFrame(n, fs[0]) ==> forall g :: g in fs ==> !Stale(n, g)
    ensures Room(n.numFrames, x + Filter(fs, From(t))) == x' + Filter(Room(n.numFrames, fs), From(t))
    ensures forall g :: g in x' ==> !LiveFrame(n, g)
  {
    var s := Filter(fs, From(t));
    FilterAll(fs, From(t));
    hide Filter;
    if |fs| < n.numFrames {
      x' := RoomFirst(n.numFrames, x, s);
    } else if x == [] && |s| == |fs| {
      x' := [];
      FilterAll(fs[1..], From(t));
      assert [] + s == s && [] + s[1..] == s[1..];
    } else {
      assert !LiveFrame(n, fs[0]);
      var y := RoomFirst(n.numFrames, x, s);
      x' := y + FilterTail(fs, t);
      Assoc(y, FilterTail(fs, t), Filter(fs[1..], From(t)));
    }
  }

  /** What comes first goes first. */
  lemma RoomFirst(n: nat, x: seq<RefFrame>, s: seq<RefFrame>) returns (y: seq<RefFrame>)
    requires n > 0 && (|x + s| >= n ==> x != [])
    ensures Room(n, x + s) == y + s && forall g :: g in y ==> g in x
  {
    y := if |x + s| >= n then x[1..] else x;
    if x != [] {
      assert (x + s)[1..] == x[1..] + s;
    }
  }

  /** The first frame, if it is from time `t` on. */
  function FilterTail(fs: seq<RefFrame>, t: int): (h: seq<RefFrame>)
    requires fs != []
    ensures Filter(fs, From(t)) == h + Filter(fs[1..], From(t)) && forall g :: g in h ==> g == fs[0]
  {
    if fs[0].time >= t then [fs[0]] else assert [] + Filter(fs[1..], From(t)) == Filter(fs[1..], From(t)); []
  }

  lemma ObtainOk(r: Ref, id: nat)
    requires Ok(r)
    ensures Ok(RefObtain(r, id))
  {
    if HasLive(r, id) {
      var k := ObtainLive(r, id);
    } else {
      ObtainNew(r, id);
      var fs := Filter(r.frames, NotId(id));
      FilterDistinct(r.frames, NotId(id));
      forall g | g in fs ensures g.id != id { FilterIn(r.frames, NotId(id), g); }
    }
  }

  lemma GrownOk(r: Ref, a: seq<RefFrame>, g: RefFrame, b: seq<RefFrame>, c: Chunk)
    requires Ok(r) && r.frames == a + [g] + b && g.id == c.id
    ensures Ok(r.(frames := a + Grown(r, g, c) + b))
  {
    hide RefClash, Complete;
    var h := Grown(r, g, c);
    var fs, fs' := r.frames, a + h + b;
    forall i, j | 0 <= i < j < |fs'| ensures fs'[i].id != fs'[j].id {
      var d := if h == [] then 1 else 0;
      assert fs'[i].id == fs[if i < |a| then i else i + d].id;
      assert fs'[j].id == fs[if j < |a| then j else j + d].id;
    }
  }

  lemma ChunkOk(r: Ref, c: Chunk)
    requires Ok(r)
    ensures Ok(RefChunk(r, c).0)
  {
    if End(c) <= r.mtu {
      ObtainOk(r, c.id);
      var r1 := RefObtain(r, c.id);
      var k := RefFind(r1.frames, c.id);
      Around(r1.frames, k);
      AddAt(r1, r1.frames[..k], r1.frames[k], r1.frames[k + 1..], c);
      GrownOk(r1, r1.frames[..k], r1.frames[k], r1.frames[k + 1..], c);
    }
  }

  /** Both sides have the frame `g` of the chunk: it meets the same fate. */
  lemma GrowRel(p: Ref, n: Ref, x: seq<RefFrame>, t: int, a: seq<RefFrame>, g: RefFrame, b: seq<RefFrame>, c: Chunk)
    requires p == n.(frames := p.frames) && Ok(p) && Ok(n) && g.id == c.id && t <= n.time - 1 - n.numFrames
    requires n.frames == a + [g] + b && p.frames == (x + Filter(a, From(t))) + [g] + Filter(b, From(t))
    requires forall h :: h in x ==> !LiveFrame(n, h)
    ensures RefFind(p.frames, c.id) < |p.frames| && RefFind(n.frames, c.id) < |n.frames|
    ensures
      var (p', po) := RefAdd(p, RefFind(p.frames, c.id), c);
      var (n', no) := RefAdd(n, RefFind(n.frames, c.id), c);
      Rel(p', n', x, t) && po == no
  {
    hide RefAdd, Filter, Rel, Grown, Out;
    var xa, fb := x + Filter(a, From(t)), Filter(b, From(t));
    AddAround(n, a, g, b, c);
    AddAround(p, xa, g, fb, c);
    GrownRel(p, n, x, t, a, g, b, c);
  }

  lemma AddAround(r: Ref, a: seq<RefFrame>, g: RefFrame, b: seq<RefFrame>, c: Chunk)
    requires Ok(r) && r.frames == a + [g] + b && g.id == c.id
    ensures RefFind(r.frames, c.id) == |a|
    ensures RefAdd(r, |a|, c) == (r.(frames := a + Grown(r, g, c) + b), Out(g, c))
  {
    hide RefAdd, Grown, Out;
    assert r.frames[|a|] == g;
    Around(r.frames, |a|);
    assert r.frames[..|a|] == a && r.frames[|a| + 1..] == b;
    AddAt(r, a, g, b, c);
  }

  lemma GrownRel(p: Ref, n: Ref, x: seq<RefFrame>, t: int, a: seq<RefFrame>, g: RefFrame, b: seq<RefFrame>, c: Chunk)
    requires p == n.(frames := p.frames) && Ok(p) && Ok(n) && g.id == c.id && t <= n.time - 1 - n.numFrames
    requires n.frames == a + [g] + b && p.frames == (x + Filter(a, From(t))) + [g] + Filter(b, From(t))
    requires forall h :: h in x ==> !LiveFrame(n, h)
    ensures
      var h := Grown(n, g, c);
      && Grown(p, g, c) == h
      && Rel(p.(frames := (x + Filter(a, From(t))) + h + Filter(b, From(t))), n.(frames := a + h + b), x, t)
  {
    hide Filter, Ok, RefClash, Complete;
    var xa, fb := x + Filter(a, From(t)), Filter(b, From(t));
    GrownOk(n, a, g, b, c);
    GrownOk(p, xa, g, fb, c);
    var h := Grown(n, g, c);
    FilterAppend(a + h, b, From(t));
    FilterAppend(a, h, From(t));
    FilterAll(h, From(t));
    assert xa + h + fb == x + (Filter(a, From(t)) + h + fb);
  }

  lemma LiveRel(p: Ref, n: Ref, x: seq<RefFrame>, t: int, c: Chunk)
    requires Rel(p, n, x, t) && HasLive(n, c.id) && End(c) <= n.mtu
    ensures Rel(RefChunk(p, c).0, RefChunk(n, c).0, x, t) && RefChunk(p, c).1 == RefChunk(n, c).1
  {
    hide RefAdd, RefObtain, Filter;
    var k := ObtainLive(n, c.id);
    var a, g, b := n.frames[..k], n.frames[k], n.frames[k + 1..];
    Around(n.frames, k);
    FilterAppend(a + [g], b, From(t));
    FilterAppend(a, [g], From(t));
    FilterAll([g], From(t));
    assert x + (Filter(a, From(t)) + [g] + Filter(b, From(t))) == (x + Filter(a, From(t))) + [g] + Filter(b, From(t));
    RelHasLive(p, n, x, t, c.id);
    var k' := ObtainLive(p, c.id);
    GrowRel(p, n, x, t, a, g, b, c);
  }

  lemma NewRel(p: Ref, n: Ref, x: seq<RefFrame>, t: int, c: Chunk) returns (x': seq<RefFrame>)
    requires Rel(p, n, x, t) && !HasLive(n, c.id) && End(c) <= n.mtu && !Loses(n, c)
    ensures Rel(RefChunk(p, c).0, RefChunk(n, c).0, x', t) && RefChunk(p, c).1 == RefChunk(n, c).1
  {
    hide RefAdd, RefObtain, Filter;
    var id, q := c.id, NotId(c.id);
    RelHasLive(p, n, x, t, id);
    ObtainNew(n, id);
    ObtainNew(p, id);
    ObtainOk(n, id);
    ObtainOk(p, id);
    var fs, x0 := Filter(n.frames, q), Filter(x, q);
    FilterAppend(x, Filter(n.frames, From(t)), q);
    FilterSwap(n.frames, From(t), q);
    forall g | g in x0 ensures !LiveFrame(n, g) { FilterIn(x, q, g); }
    FilterAll(n.frames, q);
    x' := RoomRel(n, fs, x0, t);
    var a, g := Room(n.numFrames, fs), RefFrame(id, n.time, []);
    assert Filter([], From(t)) == [] by { FilterNone([], From(t)); }
    assert a + [g] + [] == a + [g];
    assert (x' + Filter(a, From(t))) + [g] + [] == (x' + Filter(a, From(t))) + [g];
    GrowRel(RefObtain(p, id), RefObtain(n, id), x', t, a, g, [], c);
  }

  /** A chunk that makes `n` lose nothing leaves the two alike, with the same delivery. */
  lemma KeepChunk(p: Ref, n: Ref, x: seq<RefFrame>, t: int, c: Chunk) returns (x': seq<RefFrame>)
    requires Rel(p, n, x, t) && !Loses(n, c)
    ensures Rel(RefChunk(p, c).0, RefChunk(n, c).0, x', t) && RefChunk(p, c).1 == RefChunk(n, c).1
  {
    x' := x;
    if End(c) <= n.mtu {
      hide Rel, RefChunk, Loses;
      if HasLive(n, c.id) {
        LiveRel(p, n, x, t, c);
      } else {
        x' := NewRel(p, n, x, t, c);
      }
    }
  }

  /** A chunk that makes `n` lose a live frame does not make `p` lose it, once `p` has dropped what had timed out. */
  lemma LoseChunk(p: Ref, n: Ref, x: seq<RefFrame>, t: int, c: Chunk)
    requires Rel(p, n, x, t) && t == n.time - 1 - n.numFrames && Loses(n, c)
    ensures Lives(RefChunk(p, c).0) != Lives(RefChunk(n, c).0)
  {
    hide RefAdd, RefObtain, Filter, Grown, Out;
    var v := n.frames[0];
    LostBy(n, c);
    KeptBy(p, n, x, t, c);
    var p', n' := RefChunk(p, c).0, RefChunk(n, c).0;
    LiveIsFilter(p', p'.frames);
    LiveIsFilter(n', n'.frames);
    FilterIn(p'.frames, From(p'.time - p'.numFrames), v);
    FilterIn(n'.frames, From(n'.time - n'.numFrames), v);
  }

  /** A chunk of a new frame: the frames that stay, and the new one if it is not finished at once. */
  lemma NewChunk(r: Ref, c: Chunk)
    requires Ok(r) && End(c) <= r.mtu && !HasLive(r, c.id)
    ensures
      var g := RefFrame(c.id, r.time, []);
      RefChunk(r, c).0 == r.(frames := Room(r.numFrames, Filter(r.frames, NotId(c.id))) + Grown(r, g, c))
  {
    hide RefAdd, RefObtain, Filter, Grown, Out;
    var a, g := Room(r.numFrames, Filter(r.frames, NotId(c.id))), RefFrame(c.id, r.time, []);
    ObtainNew(r, c.id);
    ObtainOk(r, c.id);
    assert a + [g] + [] == a + [g];
    AddAround(RefObtain(r, c.id), a, g, [], c);
    assert Grown(RefObtain(r, c.id), g, c) == Grown(r, g, c) by { GrownSame(RefObtain(r, c.id), r, g, c); }
    assert a + Grown(r, g, c) + [] == a + Grown(r, g, c);
  }

  lemma GrownSame(r: Ref, r': Ref, g: RefFrame, c: Chunk)
    requires r.time == r'.time && r.numChunks == r'.numChunks
    ensures Grown(r, g, c) == Grown(r', g, c) && forall h :: h in Grown(r, g, c) ==> h.id == c.id
  {
    hide RefClash, Complete;
  }

  lemma LostBy(n: Ref, c: Chunk)
    requires Ok(n) && Loses(n, c)
    ensures n.frames[0] !in RefChunk(n, c).0.frames
    ensures RefChunk(n, c).0 == n.(frames := RefChunk(n, c).0.frames)
  {
    hide RefChunk, Filter, Grown;
    assert !HasLive(n, c.id);
    NewChunk(n, c);
    KeepAll(n.frames, c.id);
    GrownSame(n, n, RefFrame(c.id, n.time, []), c);
    assert n.frames[0] in n.frames;
  }

  lemma KeptBy(p: Ref, n: Ref, x: seq<RefFrame>, t: int, c: Chunk)
    requires Rel(p, n, x, t) && t == n.time - 1 - n.numFrames && Loses(n, c)
    ensures n.frames[0] in RefChunk(p, c).0.frames
    ensures RefChunk(p, c).0 == p.(frames := RefChunk(p, c).0.frames)
  {
    hide RefChunk, Filter, Grown;
    assert !HasLive(n, c.id);
    RelHasLive(p, n, x, t, c.id);
    NewChunk(p, c);
    var s, q := Filter(n.frames, From(t)), NotId(c.id);
    FilterAppend(x, s, q);
    FilterSwap(n.frames, From(t), q);
    KeepAll(n.frames, c.id);
    FilterAll(n.frames, From(t));
    FilterIn(n.frames, From(t), n.frames[0]);
    assert |s| < n.numFrames;
    var y := RoomFirst(n.numFrames, Filter(x, q), s);
  }

  // ---- runs ----

  /** The frames that had timed out at the end of the packet before are dropped. */
  function DropStale(r: Ref): Ref {
    r.(frames := Filter(r.frames, From(r.time - 1 - r.numFrames)))
  }

  /** That is what reduce_times does to the frames, at the end of that packet. */
  lemma TickDrops(r: Ref)
    ensures RefTick(r, true) == DropStale(RefTick(r, false))
  {
    LiveIsFilter(r, r.frames);
  }

  ghost predicate NoLoss(n: Ref, cs: seq<Chunk>)
    decreases |cs|
  {
    cs == [] || (!Loses(n, cs[0]) && NoLoss(RefChunk(n, cs[0]).0, cs[1..]))
  }

  /** While nothing is ever dropped, no live frame is pushed out as long as a timed-out one is held. */
  ghost predicate NeverLoses(n: Ref, ps: seq<seq<byte>>)
    decreases |ps|
  {
    ps == [] ||
    (NoLoss(n, Parse(ps[0])) && NeverLoses(RefTick(RefFeed(n, Parse(ps[0])).0, false), ps[1..]))
  }

  /** Every chunk of a packet makes the two deliver the same and leaves them with the same live frames. */
  ghost predicate AlikeFeed(p: Ref, n: Ref, cs: seq<Chunk>)
    decreases |cs|
  {
    cs == [] ||
    (var (p', o), (n', out) := RefChunk(p, cs[0]), RefChunk(n, cs[0]);
     o == out && Lives(p') == Lives(n') && AlikeFeed(p', n', cs[1..]))
  }

  /** The same over a run, where `p` drops what had timed out before the packets marked in `drop`. */
  ghost predicate Alike(p: Ref, n: Ref, ps: seq<seq<byte>>, drop: seq<bool>)
    requires |drop| == |ps|
    decreases |ps|
  {
    ps == [] ||
    (var p0, cs := if drop[0] then DropStale(p) else p, Parse(ps[0]);
     && AlikeFeed(p0, n, cs)
     && Alike(RefTick(RefFeed(p0, cs).0, false), RefTick(RefFeed(n, cs).0, false), ps[1..], drop[1..]))
  }

  lemma {:induction false} KeepFeed(p: Ref, n: Ref, x: seq<RefFrame>, t: int, cs: seq<Chunk>) returns (x': seq<RefFrame>)
    requires Rel(p, n, x, t) && NoLoss(n, cs)
    ensures AlikeFeed(p, n, cs) && Rel(RefFeed(p, cs).0, RefFeed(n, cs).0, x', t)
    ensures RefFeed(p, cs).1 == RefFeed(n, cs).1
    decreases |cs|
  {
    hide Rel, Loses, RefChunk, Lives;
    x' := x;
    if cs != [] {
      var x1 := KeepChunk(p, n, x, t, cs[0]);
      RelLives(RefChunk(p, cs[0]).0, RefChunk(n, cs[0]).0, x1, t);
      x' := KeepFeed(RefChunk(p, cs[0]).0, RefChunk(n, cs[0]).0, x1, t, cs[1..]);
    }
  }

  lemma {:induction false} LoseFeed(p: Ref, n: Ref, x: seq<RefFrame>, t: int, cs: seq<Chunk>)
    requires Rel(p, n, x, t) && t == n.time - 1 - n.numFrames && !NoLoss(n, cs)
    ensures !AlikeFeed(p, n, cs)
    decreases |cs|
  {
    hide Rel, Loses, RefChunk, Lives;
    if Loses(n, cs[0]) {
      LoseChunk(p, n, x, t, cs[0]);
    } else {
      var x1 := KeepChunk(p, n, x, t, cs[0]);
      ChunkClock(n, cs[0]);
      LoseFeed(RefChunk(p, cs[0]).0, RefChunk(n, cs[0]).0, x1, t, cs[1..]);
    }
  }

  lemma ChunkClock(r: Ref, c: Chunk)
    ensures var r' := RefChunk(r, c).0; r' == r.(frames := r'.frames)
  {
    hide RefClash, Complete, Assemble, RefFind, Drop;
  }

  lemma RelDrop(p: Ref, n: Ref, x: seq<RefFrame>, t: int) returns (x': seq<RefFrame>)
    requires Rel(p, n, x, t)
    ensures Rel(DropStale(p), n, x', n.time - 1 - n.numFrames)
  {
    hide Filter;
    var q := From(n.time - 1 - n.numFrames);
    x' := Filter(x, q);
    FilterAppend(x, Filter(n.frames, From(t)), q);
    FilterAbsorb(n.frames, From(t), q);
    FilterDistinct(p.frames, q);
    forall g | g in x' ensures !LiveFrame(n, g) { FilterIn(x, q, g); }
  }

  lemma RelTick(p: Ref, n: Ref, x: seq<RefFrame>, t: int)
    requires Rel(p, n, x, t)
    ensures Rel(RefTick(p, false), RefTick(n, false), x, t)
  {
    hide Filter;
  }

  /** Nothing dropped yet. */
  lemma RelSelf(r: Ref) returns (t: int)
    requires Ok(r)
    ensures Rel(r, r, [], t)
  {
    t := -1 - r.numFrames;
    FilterAll(r.frames, From(t));
    assert [] + r.frames == r.frames;
  }

  lemma {:induction false} KeepRun(p: Ref, n: Ref, x: seq<RefFrame>, t: int, ps: seq<seq<byte>>, drop: seq<bool>)
    requires Rel(p, n, x, t) && NeverLoses(n, ps) && |drop| == |ps|
    ensures Alike(p, n, ps, drop)
    decreases |ps|
  {
    hide Rel, NoLoss, AlikeFeed, RefFeed, RefTick, DropStale, Parse;
    if ps != [] {
      var p0, x0, t0, cs := p, x, t, Parse(ps[0]);
      if drop[0] {
        x0 := RelDrop(p, n, x, t);
        p0, t0 := DropStale(p), n.time - 1 - n.numFrames;
      }
      var x1 := KeepFeed(p0, n, x0, t0, cs);
      RelTick(RefFeed(p0, cs).0, RefFeed(n, cs).0, x1, t0);
      KeepRun(RefTick(RefFeed(p0, cs).0, false), RefTick(RefFeed(n, cs).0, false), x1, t0, ps[1..], drop[1..]);
    }
  }

  function Never(n: nat): (drop: seq<bool>)
    ensures |drop| == n && forall i :: 0 <= i < n ==> !drop[i]
  {
    if n == 0 then [] else [false] + Never(n - 1)
  }

  lemma {:induction false} FeedOk(r: Ref, cs: seq<Chunk>)
    requires Ok(r)
    ensures Ok(RefFeed(r, cs).0)
    decreases |cs|
  {
    hide Ok, RefChunk;
    if cs != [] {
      ChunkOk(r, cs[0]);
      FeedOk(RefChunk(r, cs[0]).0, cs[1..]);
    }
  }

  /** One drop, before packet `k`. */
  function Once(n: nat, k: nat): (drop: seq<bool>)
    requires k < n
    ensures |drop| == n
  {
    if k == 0 then [true] + Never(n - 1) else [false] + Once(n - 1, k - 1)
  }

  /** Where `n` loses a frame, a drop just before that packet shows. */
  lemma {:induction false} LoseRun(n: Ref, ps: seq<seq<byte>>) returns (k: nat)
    requires Ok(n) && !NeverLoses(n, ps)
    ensures k < |ps| && !Alike(n, n, ps, Once(|ps|, k))
    decreases |ps|
  {
    hide Rel, NoLoss, AlikeFeed, RefFeed, DropStale, Parse;
    var cs := Parse(ps[0]);
    if !NoLoss(n, cs) {
      k := 0;
      var t := RelSelf(n);
      var x := RelDrop(n, n, [], t);
      LoseFeed(DropStale(n), n, x, n.time - 1 - n.numFrames, cs);
    } else {
      FeedOk(n, cs);
      var rest := LoseRun(RefTick(RefFeed(n, cs).0, false), ps[1..]);
      k := rest + 1;
      assert Once(|ps|, k)[1..] == Once(|ps| - 1, rest);
    }
  }

  /**
   * Dropping timed-out frames goes unnoticed, whenever and however often it is
   * done, if and only if without it no live frame is ever pushed out while a
   * timed-out one is held; and if it is ever noticed, a single drop is.
   */
  lemma Unnoticed(r: Ref, ps: seq<seq<byte>>)
    requires Ok(r)
    ensures NeverLoses(r, ps) <==> forall drop: seq<bool> :: |drop| == |ps| ==> Alike(r, r, ps, drop)
    ensures NeverLoses(r, ps) <==> forall k :: 0 <= k < |ps| ==> Alike(r, r, ps, Once(|ps|, k))
  {
    hide Alike, NeverLoses, Once;
    if NeverLoses(r, ps) {
      var t := RelSelf(r);
      forall drop: seq<bool> | |drop| == |ps| ensures Alike(r, r, ps, drop) { KeepRun(r, r, [], t, ps, drop); }
    } else {
      var k := LoseRun(r, ps);
    }
  }

  // ---- deliveries ----

  lemma {:induction false} KeepDeliveries(p: Ref, n: Ref, x: seq<RefFrame>, t: int, ps: seq<seq<byte>>, purge: seq<bool>)
    requires Rel(p, n, x, t) && NeverLoses(n, ps) && |purge| == |ps|
    ensures RefFeedPackets(p, ps, purge).1 == RefFeedPackets(n, ps, Never(|ps|)).1
    decreases |ps|
  {
    hide Rel, NoLoss, AlikeFeed, RefFeed, RefTick, DropStale, Parse;
    if ps != [] {
      var cs := Parse(ps[0]);
      var x1 := KeepFeed(p, n, x, t, cs);
      var p1, n1 := RefFeed(p, cs).0, RefFeed(n, cs).0;
      RelTick(p1, n1, x1, t);
      var x2, t2 := x1, t;
      if purge[0] {
        TickDrops(p1);
        x2 := RelDrop(RefTick(p1, false), RefTick(n1, false), x1, t);
        t2 := RefTick(n1, false).time - 1 - RefTick(n1, false).numFrames;
      }
      assert Never(|ps|)[1..] == Never(|ps| - 1);
      KeepDeliveries(RefTick(p1, purge[0]), RefTick(n1, false), x2, t2, ps[1..], purge[1..]);
    }
  }

  lemma SimOk(a: Assembler, r: Ref, d: nat)
    requires Sim(a, r, d)
    ensures Ok(r)
  {
    forall i, j | 0 <= i < j < |r.frames| ensures r.frames[i].id != r.frames[j].id {
      assert Same(a.used[i], r.frames[i], d) && Same(a.used[j], r.frames[j], d);
    }
  }

  /**
   * Under that condition the assembler, with its clock that is pulled back,
   * delivers what the reference delivers whose clock never is and which never
   * drops a timed-out frame.
   */
  lemma ClockUnnoticed(a: Assembler, r: Ref, d: nat, ps: seq<seq<byte>>)
    requires Sim(a, r, d) && NeverLoses(r, ps)
    ensures FeedPackets(a, ps).1 == RefFeedPackets(r, ps, Never(|ps|)).1
  {
    hide *;
    SimIsInv(a, r, d);
    SimOk(a, r, d);
    RefinesReference(a, r, d, ps);
    var t := RelSelf(r);
    KeepDeliveries(r, r, [], t, ps, Purges(a, ps));
  }
}
