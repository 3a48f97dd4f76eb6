/**
 * A reference assembler that keeps the chunks themselves, has a clock that is
 * never pulled back, and delivers a frame exactly when its chunks cover it; and
 * why a sum of lengths tells when they do.
 */
module FragmentReference {
  import opened Bytes
  import opened Lists
  import opened FragmentModel

  datatype RefFrame = RefFrame(id: nat, time: nat, chunks: seq<Chunk>)

  datatype Ref = Ref(mtu: nat, numChunks: nat, numFrames: nat, time: nat, frames: seq<RefFrame>)

  predicate Covers(c: Chunk, x: nat) { c.start <= x < End(c) }

  predicate Covered(cs: seq<Chunk>, x: nat) {
    exists i :: 0 <= i < |cs| && Covers(cs[i], x)
  }

  /** The frame length announced by a last chunk, or -1. */
  function LastEnd(cs: seq<Chunk>): (n: int)
    ensures n >= 0 <==> exists i :: 0 <= i < |cs| && cs[i].last
  {
    if cs == [] then -1 else if cs[|cs| - 1].last then End(cs[|cs| - 1]) else LastEnd(cs[..|cs| - 1])
  }

  ghost predicate Complete(cs: seq<Chunk>) {
    LastEnd(cs) >= 0 && forall x :: 0 <= x < LastEnd(cs) ==> Covered(cs, x)
  }

  /** The byte at position `x`, from the chunk that covers it. */
  ghost function ByteAt(cs: seq<Chunk>, x: nat): byte
    requires Covered(cs, x)
  {
    var i :| 0 <= i < |cs| && Covers(cs[i], x);
    cs[i].data[x - cs[i].start]
  }

  ghost function Assemble(cs: seq<Chunk>): (b: seq<byte>)
    requires Complete(cs)
  {
    seq(LastEnd(cs), x requires 0 <= x < LastEnd(cs) => ByteAt(cs, x))
  }

  predicate RefClash(cs: seq<Chunk>, c: Chunk) {
    || (exists i :: 0 <= i < |cs| && Overlap(cs[i].start, |cs[i].data|, c.start, |c.data|))
    || (c.last && (LastEnd(cs) >= 0 || exists i :: 0 <= i < |cs| && End(cs[i]) > End(c)))
    || (!c.last && LastEnd(cs) >= 0 && End(c) > LastEnd(cs))
  }

  function RefFind(frames: seq<RefFrame>, id: nat): (k: nat)
    ensures k <= |frames|
    ensures k < |frames| ==> frames[k].id == id
    ensures forall i :: 0 <= i < k ==> frames[i].id != id
  {
    First(frames, (g: RefFrame) => g.id == id)
  }

  function Drop(frames: seq<RefFrame>, k: nat): seq<RefFrame>
    requires k < |frames|
  {
    frames[..k] + frames[k + 1..]
  }

  function RefAllocate(r: Ref, id: nat): Ref {
    var frames := if |r.frames| >= r.numFrames && r.frames != [] then Drop(r.frames, 0) else r.frames;
    r.(frames := frames + [RefFrame(id, r.time, [])])
  }

  function RefObtain(r: Ref, id: nat): (r': Ref)
    ensures RefFind(r'.frames, id) < |r'.frames|
  {
    var k := RefFind(r.frames, id);
    if k < |r.frames| && r.time - r.frames[k].time <= r.numFrames then r
    else
      var r1 := RefAllocate(if k < |r.frames| then r.(frames := Drop(r.frames, k)) else r, id);
      assert r1.frames[|r1.frames| - 1].id == id;
      r1
  }

  ghost function RefAdd(r: Ref, k: nat, c: Chunk): (Ref, Option<seq<byte>>)
    requires k < |r.frames|
  {
    var cs := r.frames[k].chunks + [c];
    if RefClash(r.frames[k].chunks, c) then (r.(frames := Drop(r.frames, k)), None)
    else if Complete(cs) then (r.(frames := Drop(r.frames, k)), Some(Assemble(cs)))
    else if |cs| == r.numChunks then (r.(frames := Drop(r.frames, k)), None)
    else (r.(frames := r.frames[k := RefFrame(c.id, r.time, cs)]), None)
  }

  ghost function RefChunk(r: Ref, c: Chunk): (Ref, Option<seq<byte>>) {
    if End(c) > r.mtu then (r, None)
    else
      var r1 := RefObtain(r, c.id);
      RefAdd(r1, RefFind(r1.frames, c.id), c)
  }

  function RefLive(r: Ref, frames: seq<RefFrame>): seq<RefFrame> {
    if frames == [] then []
    else (if r.time - frames[0].time > r.numFrames then [] else [frames[0]]) + RefLive(r, frames[1..])
  }

  /** The end of a packet; `purge` says whether timed-out frames are dropped now. */
  function RefTick(r: Ref, purge: bool): Ref {
    r.(time := r.time + 1, frames := if purge then RefLive(r, r.frames) else r.frames)
  }

  // ---- spans that do not overlap ----

  ghost predicate Disjoint(s: seq<Span>) {
    forall i, j :: 0 <= i < j < |s| ==> !Overlap(s[i].start, s[i].len, s[j].start, s[j].len)
  }

  ghost predicate Inside(s: seq<Span>, n: nat) {
    forall i :: 0 <= i < |s| ==> s[i].start + s[i].len <= n
  }

  function Total(s: seq<Span>): nat {
    if s == [] then 0 else Total(s[..|s| - 1]) + s[|s| - 1].len
  }

  ghost function Range(lo: nat, len: nat): (r: set<nat>)
    ensures |r| == len
    ensures forall x :: x in r <==> lo <= x < lo + len
  {
    if len == 0 then {} else Range(lo, len - 1) + {lo + len - 1}
  }

  predicate InSpan(p: Span, x: nat) { p.start <= x < p.start + p.len }

  predicate Spanned(s: seq<Span>, x: nat) {
    exists i :: 0 <= i < |s| && InSpan(s[i], x)
  }

  lemma SpannedSnoc(s: seq<Span>, x: nat)
    requires s != []
    ensures Spanned(s, x) <==> Spanned(s[..|s| - 1], x) || InSpan(s[|s| - 1], x)
  {
    if Spanned(s[..|s| - 1], x) {
      var i :| 0 <= i < |s| - 1 && InSpan(s[..|s| - 1][i], x);
      assert InSpan(s[i], x);
    }
  }

  ghost function Union(s: seq<Span>): set<nat> {
    if s == [] then {} else Union(s[..|s| - 1]) + Range(s[|s| - 1].start, s[|s| - 1].len)
  }

  lemma {:induction false} InUnion(s: seq<Span>, x: nat)
    ensures x in Union(s) <==> Spanned(s, x)
  {
    if s != [] {
      InUnion(s[..|s| - 1], x);
      SpannedSnoc(s, x);
    }
  }

  lemma {:induction false} UnionSize(s: seq<Span>)
    requires Disjoint(s)
    ensures |Union(s)| == Total(s)
  {
    if s != [] {
      var rest, last := s[..|s| - 1], s[|s| - 1];
      UnionSize(rest);
      assert Union(rest) !! Range(last.start, last.len) by {
        forall x | x in Union(rest) ensures x !in Range(last.start, last.len) {
          InUnion(rest, x);
          var i :| 0 <= i < |rest| && InSpan(rest[i], x);
          assert !Overlap(s[i].start, s[i].len, last.start, last.len);
        }
      }
    }
  }

  lemma SubsetSize(a: set<nat>, b: set<nat>)
    requires a <= b
    ensures |a| <= |b| && (|a| == |b| ==> a == b)
  {
    assert b == a + (b - a);
  }

  /**
   * Chunks that do not overlap and lie inside [0, n) never sum to more than n,
   * and sum to n exactly when together they cover it.
   */
  lemma SumIsCoverage(s: seq<Span>, n: nat)
    requires Disjoint(s) && Inside(s, n)
    ensures Total(s) <= n
    ensures Total(s) == n <==> forall x :: 0 <= x < n ==> Spanned(s, x)
  {
    UnionSize(s);
    forall x ensures x in Union(s) <==> Spanned(s, x) { InUnion(s, x); }
    assert Union(s) <= Range(0, n);
    SubsetSize(Union(s), Range(0, n));
    if forall x :: 0 <= x < n ==> Spanned(s, x) {
      assert Union(s) == Range(0, n);
    } else {
      var x :| 0 <= x < n && !Spanned(s, x);
      assert x in Range(0, n) && x !in Union(s);
    }
  }
}
