/**
 * The pieces of a cut frame, in any order: none clashes with the others, and
 * only all of them together are the frame.
 */
module FragmentPieces {
  import opened Bytes
  import opened FragmentModel
  import opened FragmentReference
  import opened FragmentRoundTrip

  /** A cut of `data` into consecutive pieces, the final one marked last. */
  ghost predicate Whole(cs: seq<Chunk>, id: nat, data: seq<byte>) {
    && cs != []
    && var c := cs[|cs| - 1];
       && c.id == id && c.last && End(c) == |data| && c.data == data[c.start..]
       && (|cs| > 1 ==> 0 < |c.data|)
       && Split(cs[..|cs| - 1], id, data, c.start)
  }

  /** What is true of the pieces of a cut in any order. */
  ghost predicate Shuffled(ps: seq<Chunk>, id: nat, data: seq<byte>) {
    && (forall i :: 0 <= i < |ps| ==> PieceOf(ps[i], data) && ps[i].id == id)
    && (forall i, j :: 0 <= i < |ps| && 0 <= j < |ps| && i != j ==> Apart(ps[i], ps[j]))
    && (forall x :: 0 <= x < |data| ==> Covered(ps, x))
    && (exists i :: 0 <= i < |ps| && ps[i].last)
  }

  /** Two different pieces of one cut. */
  ghost predicate Apart(c: Chunk, e: Chunk) {
    !Overlap(c.start, |c.data|, e.start, |e.data|) && 0 < |c.data| && !(c.last && e.last)
  }

  ghost predicate LastAtEnd(ps: seq<Chunk>, data: seq<byte>) {
    forall i :: 0 <= i < |ps| && ps[i].last ==> End(ps[i]) == |data|
  }

  lemma {:induction false} SplitApart(cs: seq<Chunk>, id: nat, data: seq<byte>, used: nat)
    requires Split(cs, id, data, used)
    ensures forall i, j :: 0 <= i < |cs| && 0 <= j < |cs| && i != j ==> Apart(cs[i], cs[j])
    ensures forall i :: 0 <= i < |cs| ==> cs[i].id == id && !cs[i].last && 0 < |cs[i].data| && End(cs[i]) <= used
  {
    if cs != [] {
      var rest, c := cs[..|cs| - 1], cs[|cs| - 1];
      SplitApart(rest, id, data, c.start);
      forall i | 0 <= i < |rest| ensures cs[i] == rest[i] && Apart(rest[i], c) && Apart(c, rest[i]) {
        assert End(rest[i]) <= c.start;
      }
    }
  }

  lemma WholeShuffled(cs: seq<Chunk>, id: nat, data: seq<byte>)
    requires Whole(cs, id, data)
    ensures Shuffled(cs, id, data) && LastAtEnd(cs, data)
  {
    var rest, c := cs[..|cs| - 1], cs[|cs| - 1];
    SplitFacts(rest, id, data, c.start);
    SplitApart(rest, id, data, c.start);
    assert PieceOf(c, data);
    forall i | 0 <= i < |rest| ensures cs[i] == rest[i] && Apart(rest[i], c) && Apart(c, rest[i]) {}
    forall x | 0 <= x < |data| ensures Covered(cs, x) {
      if x < c.start {
        assert Covered(rest, x);
        var i :| 0 <= i < |rest| && Covers(rest[i], x);
        assert Covers(cs[i], x);
      } else {
        assert Covers(cs[|cs| - 1], x);
      }
    }
  }

  lemma TwoOccurrences<T>(s: seq<T>, i: nat, j: nat)
    requires i < j < |s| && s[i] == s[j]
    ensures multiset(s)[s[i]] >= 2
  {
    assert s == s[..j] + s[j..];
    assert multiset(s) == multiset(s[..j]) + multiset(s[j..]);
    assert s[i] == s[..j][i] && s[j] == s[j..][0];
  }

  lemma {:induction false} AtMostOnce<T>(s: seq<T>, x: T)
    requires forall i, j :: 0 <= i < |s| && 0 <= j < |s| && i != j ==> s[i] != s[j]
    ensures multiset(s)[x] <= 1
  {
    if s != [] {
      assert s == [s[0]] + s[1..];
      AtMostOnce(s[1..], x);
      assert s[0] !in s[1..];
    }
  }

  /** The facts about a cut do not depend on the order of its pieces. */
  lemma PermutedShuffled(cs: seq<Chunk>, ps: seq<Chunk>, id: nat, data: seq<byte>)
    requires Shuffled(cs, id, data) && LastAtEnd(cs, data) && multiset(ps) == multiset(cs)
    ensures Shuffled(ps, id, data) && LastAtEnd(ps, data)
  {
    forall i | 0 <= i < |ps| ensures ps[i] in cs { assert ps[i] in multiset(ps); }
    forall i | 0 <= i < |cs| ensures cs[i] in ps { assert cs[i] in multiset(cs); }
    forall i, j | 0 <= i < |ps| && 0 <= j < |ps| && i != j ensures Apart(ps[i], ps[j]) {
      var a :| 0 <= a < |cs| && cs[a] == ps[i];
      var b :| 0 <= b < |cs| && cs[b] == ps[j];
      if ps[i] == ps[j] {
        TwoOccurrences(ps, if i < j then i else j, if i < j then j else i);
        CutDistinct(cs, id, data);
        AtMostOnce(cs, ps[i]);
      }
      assert Apart(cs[a], cs[b]);
    }
    forall x | 0 <= x < |data| ensures Covered(ps, x) {
      assert Covered(cs, x);
      var i :| 0 <= i < |cs| && Covers(cs[i], x);
      var k :| 0 <= k < |ps| && ps[k] == cs[i];
      assert Covers(ps[k], x);
    }
  }

  lemma CutDistinct(cs: seq<Chunk>, id: nat, data: seq<byte>)
    requires Shuffled(cs, id, data)
    ensures forall i, j :: 0 <= i < |cs| && 0 <= j < |cs| && i != j ==> cs[i] != cs[j]
  {
    forall i, j | 0 <= i < |cs| && 0 <= j < |cs| && i != j ensures cs[i] != cs[j] {
      assert Apart(cs[i], cs[j]);
    }
  }

  lemma {:induction false} LastEndOf(cs: seq<Chunk>, data: seq<byte>)
    requires LastAtEnd(cs, data)
    ensures LastEnd(cs) == -1 || LastEnd(cs) == |data|
  {
    if cs != [] && !cs[|cs| - 1].last {
      LastEndOf(cs[..|cs| - 1], data);
    }
  }

  /** Some pieces have arrived; the next one never clashes, and the frame completes with the final one only. */
  lemma PieceFits(ps: seq<Chunk>, id: nat, data: seq<byte>, k: nat)
    requires Shuffled(ps, id, data) && LastAtEnd(ps, data) && k < |ps|
    ensures !RefClash(ps[..k], ps[k])
    ensures k + 1 < |ps| ==> !Complete(ps[..k + 1])
    ensures k + 1 == |ps| ==> Complete(ps) && Assemble(ps) == data
  {
    LastEndOf(ps[..k], data);
    LastEndOf(ps[..k + 1], data);
    forall i | 0 <= i < k ensures ps[..k][i] == ps[i] && Apart(ps[i], ps[k]) && PieceOf(ps[i], data) {}
    assert PieceOf(ps[k], data);
    if k + 1 < |ps| {
      var x := ps[k + 1].start;
      assert Apart(ps[k + 1], ps[k]) && PieceOf(ps[k + 1], data);
      var qs := ps[..k + 1];
      forall i | 0 <= i < |qs| ensures !Covers(qs[i], x) {
        assert Apart(ps[i], ps[k + 1]);
      }
      assert !Covered(ps[..k + 1], x);
    } else {
      assert ps[..k + 1] == ps;
      AssemblePieces(ps, data);
    }
  }
}
