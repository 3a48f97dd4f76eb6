/**
 * The generated writer and parser objects, for any schema.
 */
module BProto {
  import opened Bytes
  import opened BProtoModel

  // ---- entry boundaries ----

  /** Where the n-th entry of a message starts. */
  function Off(rs: seq<Raw>, n: nat): nat
    requires n <= |rs|
  {
    if n == 0 then 0 else Off(rs, n - 1) + Size(rs[n - 1])
  }

  lemma {:induction false} FlatAt(rs: seq<Raw>, n: nat)
    requires n <= |rs|
    ensures Off(rs, n) <= |Flat(rs)| && Flat(rs)[Off(rs, n)..] == Flat(rs[n..])
  {
    if n == 0 {
      assert rs[0..] == rs;
    } else {
      FlatAt(rs, n - 1);
      hide Encode;
      assert rs[n - 1..][1..] == rs[n..];
      var tail := Flat(rs[n - 1..]);
      assert tail == Encode(rs[n - 1]) + Flat(rs[n..]);
      assert tail[Size(rs[n - 1])..] == Flat(rs[n..]);
      assert Flat(rs)[Off(rs, n)..] == tail[Size(rs[n - 1])..];
    }
  }

  lemma {:induction false} OffMonotone(rs: seq<Raw>, m: nat, n: nat)
    requires m <= n <= |rs|
    ensures Off(rs, m) <= Off(rs, n) && (m < n ==> Off(rs, m) + Size(rs[m]) <= Off(rs, n))
  {
    if m < n {
      OffMonotone(rs, m, n - 1);
    }
  }

  lemma OffStrict(rs: seq<Raw>, m: nat, n: nat)
    requires m < n <= |rs|
    ensures Off(rs, m) < Off(rs, n)
  {
    OffMonotone(rs, m, n);
  }

  lemma {:induction false} OffPrefix(rs: seq<Raw>, m: nat, n: nat)
    requires n <= m <= |rs|
    ensures Off(rs[..m], n) == Off(rs, n)
  {
    if n > 0 {
      OffPrefix(rs, m, n - 1);
    }
  }

  /** At every boundary inside a message there is a whole entry to read. */
  lemma ReadAt(rs: seq<Raw>, n: nat)
    requires n < |rs| && WellFormed(rs[n])
    ensures Off(rs, n) <= |Flat(rs)| && Read(Flat(rs)[Off(rs, n)..]) == Some(rs[n])
  {
    FlatAt(rs, n);
    ReadEncode(rs[n], Flat(rs[n + 1..]));
    assert rs[n..][1..] == rs[n + 1..];
  }

  // ---- the span of an entry ----

  function FirstHit(sc: seq<Spec>, k: nat, rs: seq<Raw>): (f: Option<nat>)
    requires k < |sc|
    ensures f.Some? ==> f.value < |rs|
    ensures f.None? ==> forall i :: 0 <= i < |rs| ==> !Hits(sc, k, rs[i])
    ensures f.Some? ==> forall i :: 0 <= i < f.value ==> !Hits(sc, k, rs[i])
  {
    if rs == [] then None
    else
      var f := FirstHit(sc, k, rs[..|rs| - 1]);
      if f.Some? then f else if Hits(sc, k, rs[|rs| - 1]) then Some(|rs| - 1) else None
  }

  function LastHit(sc: seq<Spec>, k: nat, rs: seq<Raw>): (l: Option<nat>)
    requires k < |sc|
    ensures l.Some? <==> FirstHit(sc, k, rs).Some?
    ensures l.Some? ==> FirstHit(sc, k, rs).value <= l.value < |rs| && Hits(sc, k, rs[l.value])
    ensures l.Some? ==> forall i :: l.value < i < |rs| ==> !Hits(sc, k, rs[i])
  {
    if rs == [] then None
    else if Hits(sc, k, rs[|rs| - 1]) then Some(|rs| - 1)
    else LastHit(sc, k, rs[..|rs| - 1])
  }

  /** start and span of entry `k` once the entries `rs` have been scanned, in a buffer of `len` bytes */
  ghost predicate SpanIs(sc: seq<Spec>, k: nat, rs: seq<Raw>, len: nat, start: nat, span: nat)
    requires k < |sc|
  {
    var f, l := FirstHit(sc, k, rs), LastHit(sc, k, rs);
    if f.None? then start == len && span == 0
    else start == Off(rs, f.value) && start + span == Off(rs, l.value + 1)
  }

  lemma {:induction false} NoBodies(sc: seq<Spec>, k: nat, rs: seq<Raw>)
    requires k < |sc| && forall i :: 0 <= i < |rs| ==> !Hits(sc, k, rs[i])
    ensures Bodies(sc, k, rs) == []
  {
    if rs != [] { NoBodies(sc, k, rs[1..]); }
  }

  /** The entries between the first and the last hit hold all values. */
  lemma SpanHoldsAll(sc: seq<Spec>, k: nat, rs: seq<Raw>)
    requires k < |sc|
    ensures
      var f, l := FirstHit(sc, k, rs), LastHit(sc, k, rs);
      Bodies(sc, k, rs) == if f.None? then [] else Bodies(sc, k, rs[f.value..l.value + 1])
  {
    hide FirstHit, LastHit, Bodies;
    var f, l := FirstHit(sc, k, rs), LastHit(sc, k, rs);
    if f.None? {
      NoBodies(sc, k, rs);
    } else {
      var a, b, c := rs[..f.value], rs[f.value..l.value + 1], rs[l.value + 1..];
      assert rs == a + (b + c);
      BodiesAppend(sc, k, a, b + c);
      BodiesAppend(sc, k, b, c);
      assert Bodies(sc, k, a) == [] by { NoBodies(sc, k, a); }
      assert Bodies(sc, k, c) == [] by { NoBodies(sc, k, c); }
      assert [] + (Bodies(sc, k, b) + []) == Bodies(sc, k, b);
    }
  }

  // ---- the writer ----

  class Writer {
    const sc: seq<Spec>
    var out: seq<byte>
    var counts: seq<nat>
    ghost var items: seq<Item>

    ghost predicate Valid()
      reads this
    {
      && |counts| == |sc| && ItemsOk(sc, items) && out == Flat(RawsOf(sc, items))
      && (forall k :: 0 <= k < |sc| ==> counts[k] == |Added(k, items)|)
    }

    /** Writer_Init */
    constructor (sc: seq<Spec>)
      ensures this.sc == sc && Valid() && items == []
    {
      this.sc, out, items := sc, [], [];
      counts := seq(|sc|, _ => 0);
    }

    /** Writer_Add, for entry `k` and its value */
    method Add(k: nat, v: Value)
      requires Valid() && k < |sc| && ValueFits(sc[k].ty, v)
      requires sc[k].card in {Optional, Required} ==> counts[k] == 0
      modifies this
      ensures Valid()
      ensures
        var it := Item(k, BodyOf(sc[k].ty, v));
        ItemOk(sc, it) && items == old(items) + [it] && out == old(out) + Encode(RawOf(sc, it))
    {
      hide BodyOf, ValueFits, Encode, Flat, RawsOf, RawOf, Added, ItemOk;
      ValueRoundTrip(sc, k, v);
      var body := BodyOf(sc[k].ty, v);
      ghost var it := Item(k, body);
      AddOne(sc, items, it);
      var code := Code(sc[k].ty);
      var bytes := ToLE(sc[k].id, 2) + ToLE(code, 2);
      if code > 4 {
        bytes := bytes + ToLE(|body|, 4);
      }
      HeaderThenBody(sc, it);
      Assoc(out, bytes, body);
      out := out + bytes + body;
      counts := counts[k := counts[k] + 1];
      items := items + [it];
    }

    /** Writer_Finish: what its assertions demand is what makes the message acceptable */
    method Finish() returns (used: nat)
      requires Valid() && Unambiguous(sc)
      requires forall k :: 0 <= k < |sc| ==> CardOk(sc[k].card, counts[k])
      ensures used == |out| && Accepts(sc, out) && Scan(sc, out) == Some(RawsOf(sc, items))
    {
      RoundTrip(sc, items);
      used := |out|;
    }
  }

  // ---- the parser ----

  class Parser {
    const sc: seq<Spec>
    var buf: seq<byte>
    var start: seq<nat>
    var span: seq<nat>
    var pos: seq<nat>
    ghost var raws: seq<Raw>    // the entries of the accepted buffer
    ghost var cur: seq<nat>     // the entry each getter is at

    constructor (sc: seq<Spec>)
      requires Unambiguous(sc)
      ensures this.sc == sc
    {
      this.sc := sc;
      buf, start, span, pos, raws, cur := [], [], [], [], [], [];
    }

    /** The getter of entry `k` is at an entry boundary inside its span. */
    ghost predicate FieldOk(k: nat)
      requires k < |sc| == |start| == |span| == |pos| == |cur|
      reads this
    {
      && SpanIs(sc, k, raws, |buf|, start[k], span[k])
      && pos[k] <= span[k]
      && var f, l := FirstHit(sc, k, raws), LastHit(sc, k, raws);
         f.Some? ==> f.value <= cur[k] <= l.value + 1 && start[k] + pos[k] == Off(raws, cur[k])
    }

    ghost predicate Valid()
      reads this
    {
      && Unambiguous(sc) && Message(sc, raws) && buf == Flat(raws)
      && |sc| == |start| == |span| == |pos| == |cur|
      && (forall k {:trigger FieldOk(k)} :: 0 <= k < |sc| ==> FieldOk(k))
    }

    /** The values the getter of entry `k` has yet to return. */
    ghost function Remaining(k: nat): seq<seq<byte>>
      requires k < |sc| == |cur|
      reads this
    {
      Rest(sc, k, raws, cur[k])
    }

    /** The loop of Parser_Init; on success the entries scanned and their counts are known */
    method ScanBuffer() returns (ok: bool, counts: seq<nat>)
      requires Unambiguous(sc) && start == Same(|sc|, |buf|) && span == Same(|sc|, 0)
      modifies this`start, this`span, this`raws
      ensures ok <==> Scan(sc, buf).Some?
      ensures ok ==> Scan(sc, buf) == Some(raws) && Summary(sc, raws, |buf|, start, span, counts)
    {
      hide Scan, Read, MatchOf, Unambiguous, Summary;
      counts := Same(|sc|, 0);
      raws := [];
      var at := 0;
      assert buf[0..] == buf;
      PrependNone(Scan(sc, buf));
      NoEntries(sc, |buf|);
      while at < |buf|
        invariant at <= |buf| && at == Off(raws, |raws|)
        invariant Scan(sc, buf) == Prepend(raws, Scan(sc, buf[at..]))
        invariant Summary(sc, raws, |buf|, start, span, counts)
      {
        ScanStep(sc, raws, buf, at);
        var raw := Read(buf[at..]);
        if raw.None? {
          return false, counts;
        }
        var m := MatchOf(sc, raw.value);
        if m.None? {
          return false, counts;
        }
        var k, entryPos := m.value, at;
        Record(sc, raws, raw.value, |buf|, start, span, counts);
        at := at + Size(raw.value);
        if start[k] == |buf| {
          start := start[k := entryPos];
        }
        span := span[k := at - start[k]];
        counts := counts[k := counts[k] + 1];
        raws := raws + [raw.value];
      }
      ScanEmpty(sc, raws);
      assert buf[at..] == [];
      ok := true;
    }

    /** The cardinality checks at the end of Parser_Init */
    method CheckCounts(counts: seq<nat>) returns (ok: bool)
      requires |counts| == |sc|
      ensures ok <==> forall k :: 0 <= k < |sc| ==> CardOk(sc[k].card, counts[k])
    {
      for k := 0 to |sc|
        invariant forall j :: 0 <= j < k ==> CardOk(sc[j].card, counts[j])
      {
        if !CardOk(sc[k].card, counts[k]) {
          return false;
        }
      }
      ok := true;
    }

    /** Parser_Init */
    method Init(b: seq<byte>) returns (ok: bool)
      requires Unambiguous(sc)
      modifies this
      ensures ok <==> Accepts(sc, b)
      ensures ok ==> Valid() && buf == b && Scan(sc, b) == Some(raws)
      ensures ok ==> forall k :: 0 <= k < |sc| ==> pos[k] == 0 && Remaining(k) == Bodies(sc, k, raws)
    {
      hide Scan, Unambiguous, Summary, FirstHit, LastHit, SpanIs, Rest, Bodies, Count, CardOk, Flat, Off;
      buf := b;
      start, span, pos := Same(|sc|, |b|), Same(|sc|, 0), Same(|sc|, 0);
      var counts;
      ok, counts := ScanBuffer();
      if !ok {
        return;
      }
      SummaryFacts(sc, raws, |buf|, start, span, counts);
      ok := CheckCounts(counts);
      ScanIsFlat(sc, b);
      if !ok {
        return;
      }
      cur := Firsts(sc, raws);
      forall k | 0 <= k < |sc| ensures FieldOk(k) && Remaining(k) == Bodies(sc, k, raws) {
        AtFirst(sc, k, raws);
        SpanStart(sc, k, raws, |buf|, start[k], span[k]);
      }
    }

    /** Parser_GotEverything: exactly when no value is left */
    method GotEverything() returns (all: bool)
      requires Valid()
      ensures all <==> forall k :: 0 <= k < |sc| ==> Remaining(k) == []
    {
      hide Message, Unambiguous, FirstHit, LastHit, Flat;
      all := true;
      for k := 0 to |sc|
        invariant all <==> forall j :: 0 <= j < k ==> Remaining(j) == []
      {
        assert FieldOk(k);
        if pos[k] == span[k] {
          AtEnd(sc, k, raws, start[k], span[k], pos[k], cur[k]);
          assert Remaining(k) == [];
        } else {
          NotAtEnd(sc, k, raws, start[k], span[k], pos[k], cur[k]);
          assert Remaining(k) != [];
          all := false;
        }
      }
    }

    /** Parser_Forward: skips what is left of entry `k` */
    method Forward(k: nat)
      requires Valid() && k < |sc|
      modifies this`pos, this`cur
      ensures Valid() && Remaining(k) == []
      ensures forall j :: 0 <= j < |sc| && j != k ==> pos[j] == old(pos[j]) && cur[j] == old(cur[j])
    {
      hide Message, Unambiguous, FirstHit, LastHit, Flat;
      assert FieldOk(k);
      ghost var l := LastHit(sc, k, raws);
      pos := pos[k := span[k]];
      cur := cur[k := if l.Some? then l.value + 1 else cur[k]];
      forall j | 0 <= j < |sc| ensures FieldOk(j) { assert old(FieldOk(j)); }
      AtEnd(sc, k, raws, start[k], span[k], pos[k], cur[k]);
    }

    /** Parser_Reset: starts entry `k` over */
    method Reset(k: nat)
      requires Valid() && k < |sc|
      modifies this`pos, this`cur
      ensures Valid() && Remaining(k) == Bodies(sc, k, raws)
      ensures forall j :: 0 <= j < |sc| && j != k ==> pos[j] == old(pos[j]) && cur[j] == old(cur[j])
    {
      hide Message, Unambiguous, FirstHit, LastHit, Flat;
      assert FieldOk(k);
      AtFirst(sc, k, raws);
      pos := pos[k := 0];
      cur := cur[k := Firsts(sc, raws)[k]];
      forall j | 0 <= j < |sc| ensures FieldOk(j) { assert old(FieldOk(j)); }
    }

    /** Calling Parser_Get until it returns 0. */
    method GetAll(k: nat) returns (values: seq<Value>)
      requires Valid() && k < |sc|
      modifies this`pos, this`cur
      ensures Valid() && values == Decoded(sc[k].ty, old(Remaining(k))) && Remaining(k) == [] && pos[k] == span[k]
      ensures forall j :: 0 <= j < |sc| && j != k ==> pos[j] == old(pos[j]) && cur[j] == old(cur[j])
    {
      hide Message, Unambiguous, FieldOk, Rest, Flat, ValueOf;
      values := [];
      var r := Get(k);
      while r.Some?
        invariant Valid()
        invariant Decoded(sc[k].ty, old(Remaining(k)))
                  == values + (if r.Some? then [r.value] else []) + Decoded(sc[k].ty, Remaining(k))
        invariant r.None? ==> Remaining(k) == [] && pos[k] == span[k]
        invariant forall j :: 0 <= j < |sc| && j != k ==> pos[j] == old(pos[j]) && cur[j] == old(cur[j])
        decreases r.Some?, |Remaining(k)|
      {
        values := values + [r.value];
        r := Get(k);
      }
    }

    /** The entry that the getter of `k` is at, which it then passes */
    method Advance(k: nat) returns (raw: Raw)
      requires Valid() && k < |sc| && pos[k] < span[k]
      modifies this`pos, this`cur
      ensures Valid() && old(pos[k]) < pos[k] && old(cur[k]) < |raws| && raw == raws[old(cur[k])]
      ensures old(Remaining(k)) == (if Hits(sc, k, raw) then [raw.body] else []) + Remaining(k)
      ensures forall j :: 0 <= j < |sc| && j != k ==> pos[j] == old(pos[j]) && cur[j] == old(cur[j])
    {
      hide Message, Unambiguous, Read, FirstHit, LastHit, Flat, Rest, Hits;
      assert FieldOk(k);
      AtEntry(sc, k, raws, start[k], span[k], pos[k], cur[k]);
      raw := Read(buf[start[k] + pos[k]..]).value;
      ghost var n := cur[k];
      pos := pos[k := pos[k] + Size(raw)];
      cur := cur[k := n + 1];
      forall j | 0 <= j < |sc| ensures FieldOk(j) { assert old(FieldOk(j)); }
    }

    /** Parser_Get */
    method Get(k: nat) returns (r: Option<Value>)
      requires Valid() && k < |sc|
      modifies this`pos, this`cur
      ensures Valid()
      ensures r.None? ==> old(Remaining(k)) == [] && pos[k] == span[k] && Remaining(k) == []
      ensures r.Some? ==>
        && old(Remaining(k)) != [] && Remaining(k) == old(Remaining(k))[1..]
        && r.value == ValueOf(sc[k].ty, old(Remaining(k))[0])
      ensures forall j :: 0 <= j < |sc| && j != k ==> pos[j] == old(pos[j]) && cur[j] == old(cur[j])
    {
      hide Message, Unambiguous, FirstHit, LastHit, Flat, Rest;
      assert FieldOk(k);
      while pos[k] < span[k]
        invariant Valid() && FieldOk(k)
        invariant Remaining(k) == old(Remaining(k))
        invariant forall j :: 0 <= j < |sc| && j != k ==> pos[j] == old(pos[j]) && cur[j] == old(cur[j])
        decreases span[k] - pos[k]
      {
        var raw := Advance(k);
        if raw.id == sc[k].id && raw.code == Code(sc[k].ty) {
          return Some(ValueOf(sc[k].ty, raw.body));
        }
      }
      AtEnd(sc, k, raws, start[k], span[k], pos[k], cur[k]);
      r := None;
    }
  }

  function Same(n: nat, v: nat): (r: seq<nat>)
    ensures |r| == n && forall i :: 0 <= i < n ==> r[i] == v
  {
    seq(n, _ => v)
  }

  function Prepend(rs: seq<Raw>, o: Option<seq<Raw>>): Option<seq<Raw>> {
    if o.None? then None else Some(rs + o.value)
  }

  lemma PrependNone(o: Option<seq<Raw>>)
    ensures Prepend([], o) == o
  {
    if o.Some? { assert [] + o.value == o.value; }
  }

  lemma ScanEmpty(sc: seq<Spec>, rs: seq<Raw>)
    ensures Prepend(rs, Scan(sc, [])) == Some(rs)
  {
    assert rs + [] == rs;
  }

  /** What Parser_Init knows of every schema entry once the wire entries `rs` are scanned. */
  ghost predicate Summary(sc: seq<Spec>, rs: seq<Raw>, len: nat, start: seq<nat>, span: seq<nat>, counts: seq<nat>) {
    && |start| == |span| == |counts| == |sc|
    && forall k :: 0 <= k < |sc| ==> Sums(sc, k, rs, len, start[k], span[k], counts[k])
  }

  ghost predicate Sums(sc: seq<Spec>, k: nat, rs: seq<Raw>, len: nat, start: nat, span: nat, count: nat)
    requires k < |sc|
  {
    SpanIs(sc, k, rs, len, start, span) && count == Count(sc, k, rs)
  }

  lemma NoEntries(sc: seq<Spec>, len: nat)
    ensures Summary(sc, [], len, Same(|sc|, len), Same(|sc|, 0), Same(|sc|, 0))
  {
  }

  lemma SummaryFacts(sc: seq<Spec>, rs: seq<Raw>, len: nat, start: seq<nat>, span: seq<nat>, counts: seq<nat>)
    requires Summary(sc, rs, len, start, span, counts)
    ensures |start| == |span| == |counts| == |sc|
    ensures forall k :: 0 <= k < |sc| ==> SpanIs(sc, k, rs, len, start[k], span[k]) && counts[k] == Count(sc, k, rs)
  {
    assert forall k :: 0 <= k < |sc| ==> Sums(sc, k, rs, len, start[k], span[k], counts[k]);
  }

  /** One more wire entry, recorded for the schema entry it matches. */
  lemma Record(sc: seq<Spec>, rs: seq<Raw>, r: Raw, len: nat, start: seq<nat>, span: seq<nat>, counts: seq<nat>)
    requires Unambiguous(sc) && MatchOf(sc, r).Some? && Summary(sc, rs, len, start, span, counts) && Off(rs, |rs|) < len
    ensures
      var k, at := MatchOf(sc, r).value, Off(rs, |rs|);
      && k < |sc| == |start| == |span| == |counts| && Off(rs + [r], |rs| + 1) == at + Size(r)
      && var start' := if start[k] == len then start[k := at] else start;
         && start'[k] <= at
         && Summary(sc, rs + [r], len, start', span[k := at + Size(r) - start'[k]], counts[k := counts[k] + 1])
  {
    hide MatchOf, Unambiguous, Sums, Off, Size, Hits;
    OneHit(sc, r);
    var k, at := MatchOf(sc, r).value, Off(rs, |rs|);
    SumSnoc(sc, k, rs, r, len, start[k], span[k], counts[k]);
    var start' := if start[k] == len then start[k := at] else start;
    var span', counts' := span[k := at + Size(r) - start'[k]], counts[k := counts[k] + 1];
    forall j | 0 <= j < |sc| ensures Sums(sc, j, rs + [r], len, start'[j], span'[j], counts'[j]) {
      SumSnoc(sc, j, rs, r, len, start[j], span[j], counts[j]);
      if j != k {
        assert start'[j] == start[j] && span'[j] == span[j] && counts'[j] == counts[j];
      }
    }
  }

  lemma SumSnoc(sc: seq<Spec>, k: nat, rs: seq<Raw>, r: Raw, len: nat, start: nat, span: nat, count: nat)
    requires k < |sc| && Sums(sc, k, rs, len, start, span, count) && Off(rs, |rs|) < len
    ensures
      var at := Off(rs, |rs|);
      var start' := if start == len then at else start;
      && start' <= at && Off(rs + [r], |rs| + 1) == at + Size(r)
      && (if Hits(sc, k, r) then Sums(sc, k, rs + [r], len, start', at + Size(r) - start', count + 1)
          else Sums(sc, k, rs + [r], len, start, span, count))
  {
    SpanSnoc(sc, k, rs, r, len, start, span);
  }

  lemma ScanStep(sc: seq<Spec>, rs: seq<Raw>, b: seq<byte>, at: nat)
    requires at < |b|
    ensures
      var r := Read(b[at..]);
      if r.None? || MatchOf(sc, r.value).None? then Scan(sc, b[at..]).None?
      else
        && at + Size(r.value) <= |b|
        && Prepend(rs, Scan(sc, b[at..])) == Prepend(rs + [r.value], Scan(sc, b[at + Size(r.value)..]))
  {
    hide Read, MatchOf;
    var r := Read(b[at..]);
    if r.Some? && MatchOf(sc, r.value).Some? {
      assert b[at..][Size(r.value)..] == b[at + Size(r.value)..];
      var rest := Scan(sc, b[at + Size(r.value)..]);
      if rest.Some? { assert rs + ([r.value] + rest.value) == (rs + [r.value]) + rest.value; }
    }
  }

  lemma OneHit(sc: seq<Spec>, r: Raw)
    requires Unambiguous(sc) && MatchOf(sc, r).Some?
    ensures MatchOf(sc, r).value < |sc|
    ensures forall k :: 0 <= k < |sc| ==> (Hits(sc, k, r) <==> k == MatchOf(sc, r).value)
  {
    var m := MatchOf(sc, r).value;
    MatchIsHit(sc, r, m);
    forall k | 0 <= k < |sc| && Hits(sc, k, r) ensures k == m { OnlyHit(sc, r, k, m); }
  }

  /** What one more entry does to a start, a span and a count. */
  ghost predicate SpanGrows(sc: seq<Spec>, k: nat, rs: seq<Raw>, r: Raw, len: nat, start: nat, span: nat)
    requires k < |sc|
  {
    var at := Off(rs, |rs|);
    var start' := if start == len then at else start;
    && start' <= at
    && Off(rs + [r], |rs| + 1) == at + Size(r)
    && (if Hits(sc, k, r) then SpanIs(sc, k, rs + [r], len, start', at + Size(r) - start')
        else SpanIs(sc, k, rs + [r], len, start, span))
    && Count(sc, k, rs + [r]) == Count(sc, k, rs) + if Hits(sc, k, r) then 1 else 0
  }

  lemma SpanSnoc(sc: seq<Spec>, k: nat, rs: seq<Raw>, r: Raw, len: nat, start: nat, span: nat)
    requires k < |sc| && SpanIs(sc, k, rs, len, start, span) && Off(rs, |rs|) < len
    ensures SpanGrows(sc, k, rs, r, len, start, span)
  {
    hide FirstHit, LastHit, Count, Hits, Size, Off, SpanIs;
    HitSnoc(sc, k, rs, r);
    OffSnoc(rs, r, |rs|);
    if Hits(sc, k, r) {
      SpanHit(sc, k, rs, r, len, start, span);
    } else {
      SpanMiss(sc, k, rs, r, len, start, span);
    }
  }

  /** The new entry is one of entry `k`: its span reaches to the end of it. */
  lemma SpanHit(sc: seq<Spec>, k: nat, rs: seq<Raw>, r: Raw, len: nat, start: nat, span: nat)
    requires k < |sc| && SpanIs(sc, k, rs, len, start, span) && Off(rs, |rs|) < len && Hits(sc, k, r)
    ensures
      var at := Off(rs, |rs|);
      var start' := if start == len then at else start;
      start' <= at && SpanIs(sc, k, rs + [r], len, start', at + Size(r) - start')
  {
    hide FirstHit, LastHit, Hits, Size, Off;
    HitSnoc(sc, k, rs, r);
    var f := FirstHit(sc, k, rs);
    OffSnoc(rs, r, |rs|);
    if f.Some? {
      OffSnoc(rs, r, f.value);
      OffMonotone(rs, f.value, |rs|);
    }
  }

  /** The new entry is one of another schema entry. */
  lemma SpanMiss(sc: seq<Spec>, k: nat, rs: seq<Raw>, r: Raw, len: nat, start: nat, span: nat)
    requires k < |sc| && SpanIs(sc, k, rs, len, start, span) && Off(rs, |rs|) < len && !Hits(sc, k, r)
    ensures start == len || start <= Off(rs, |rs|)
    ensures SpanIs(sc, k, rs + [r], len, start, span)
  {
    hide FirstHit, LastHit, Hits, Size, Off;
    HitSnoc(sc, k, rs, r);
    var f, l := FirstHit(sc, k, rs), LastHit(sc, k, rs);
    if f.Some? {
      OffSnoc(rs, r, f.value);
      OffSnoc(rs, r, l.value + 1);
      OffMonotone(rs, f.value, |rs|);
    }
  }

  lemma OffSnoc(rs: seq<Raw>, r: Raw, n: nat)
    requires n <= |rs|
    ensures Off(rs + [r], n) == Off(rs, n) && Off(rs + [r], |rs| + 1) == Off(rs, |rs|) + Size(r)
  {
    var all := rs + [r];
    assert all[..|rs|] == rs;
    OffPrefix(all, |rs|, n);
    OffPrefix(all, |rs|, |rs|);
  }

  lemma HitSnoc(sc: seq<Spec>, k: nat, rs: seq<Raw>, r: Raw)
    requires k < |sc|
    ensures FirstHit(sc, k, rs + [r]) ==
      if FirstHit(sc, k, rs).Some? then FirstHit(sc, k, rs) else if Hits(sc, k, r) then Some(|rs|) else None
    ensures LastHit(sc, k, rs + [r]) == if Hits(sc, k, r) then Some(|rs|) else LastHit(sc, k, rs)
    ensures Count(sc, k, rs + [r]) == Count(sc, k, rs) + if Hits(sc, k, r) then 1 else 0
  {
    assert (rs + [r])[..|rs|] == rs;
  }

  /** The values of entry `k` from the n-th wire entry on, up to the end of its span. */
  ghost function Rest(sc: seq<Spec>, k: nat, rs: seq<Raw>, n: nat): seq<seq<byte>>
    requires k < |sc|
  {
    var l := LastHit(sc, k, rs);
    if l.None? || n > l.value + 1 then [] else Bodies(sc, k, rs[n..l.value + 1])
  }

  ghost function Firsts(sc: seq<Spec>, rs: seq<Raw>): (r: seq<nat>)
    ensures |r| == |sc|
    ensures forall k :: 0 <= k < |sc| ==> FirstHit(sc, k, rs).Some? ==> r[k] == FirstHit(sc, k, rs).value
  {
    seq(|sc|, k requires 0 <= k < |sc| => if FirstHit(sc, k, rs).Some? then FirstHit(sc, k, rs).value else 0)
  }

  lemma AtFirst(sc: seq<Spec>, k: nat, rs: seq<Raw>)
    requires k < |sc|
    ensures Rest(sc, k, rs, Firsts(sc, rs)[k]) == Bodies(sc, k, rs)
    ensures FirstHit(sc, k, rs).Some? ==> FirstHit(sc, k, rs).value <= LastHit(sc, k, rs).value
  {
    hide FirstHit, LastHit, Bodies;
    SpanHoldsAll(sc, k, rs);
  }

  lemma SpanStart(sc: seq<Spec>, k: nat, rs: seq<Raw>, len: nat, start: nat, span: nat)
    requires k < |sc| && SpanIs(sc, k, rs, len, start, span)
    ensures FirstHit(sc, k, rs).Some? ==> start == Off(rs, FirstHit(sc, k, rs).value)
  {
  }

  lemma RestStep(sc: seq<Spec>, k: nat, rs: seq<Raw>, n: nat)
    requires k < |sc| && LastHit(sc, k, rs).Some? && n <= LastHit(sc, k, rs).value
    ensures Rest(sc, k, rs, n) == (if Hits(sc, k, rs[n]) then [rs[n].body] else []) + Rest(sc, k, rs, n + 1)
  {
    hide FirstHit, LastHit, Hits;
    var l := LastHit(sc, k, rs).value;
    assert rs[n..l + 1][1..] == rs[n + 1..l + 1];
  }

  /** Before the end of its span a getter finds a whole entry that ends inside the span. */
  lemma AtEntry(sc: seq<Spec>, k: nat, rs: seq<Raw>, start: nat, span: nat, pos: nat, n: nat)
    requires k < |sc| && Message(sc, rs) && SpanIs(sc, k, rs, |Flat(rs)|, start, span) && pos < span
    requires FirstHit(sc, k, rs).Some? ==> n <= LastHit(sc, k, rs).value + 1 && start + pos == Off(rs, n)
    ensures LastHit(sc, k, rs).Some? && n <= LastHit(sc, k, rs).value
    ensures start + pos <= |Flat(rs)| && Read(Flat(rs)[start + pos..]) == Some(rs[n])
    ensures pos + Size(rs[n]) <= span && start + pos + Size(rs[n]) == Off(rs, n + 1)
    ensures Rest(sc, k, rs, n) == (if Hits(sc, k, rs[n]) then [rs[n].body] else []) + Rest(sc, k, rs, n + 1)
  {
    hide FirstHit, LastHit, Read, Flat, Hits, WellFormed, Size, Message, Rest;
    var l := LastHit(sc, k, rs).value;
    assert n <= l;
    OffMonotone(rs, n + 1, l + 1);
    InMessage(sc, rs, n);
    ReadAt(rs, n);
    RestStep(sc, k, rs, n);
  }

  lemma InMessage(sc: seq<Spec>, rs: seq<Raw>, n: nat)
    requires Message(sc, rs) && n < |rs|
    ensures WellFormed(rs[n])
  {
  }

  lemma NotAtEnd(sc: seq<Spec>, k: nat, rs: seq<Raw>, start: nat, span: nat, pos: nat, n: nat)
    requires k < |sc| && SpanIs(sc, k, rs, |Flat(rs)|, start, span) && pos < span
    requires FirstHit(sc, k, rs).Some? ==> n <= LastHit(sc, k, rs).value + 1 && start + pos == Off(rs, n)
    ensures Rest(sc, k, rs, n) != []
  {
    hide FirstHit, LastHit, Flat, Size, Hits;
    var l := LastHit(sc, k, rs).value;
    assert n <= l;
    assert rs[n..l + 1] == rs[n..l] + [rs[l]];
    LastBody(sc, k, rs[n..l], rs[l]);
  }

  lemma LastBody(sc: seq<Spec>, k: nat, rs: seq<Raw>, r: Raw)
    requires k < |sc| && Hits(sc, k, r)
    ensures Bodies(sc, k, rs + [r]) != []
  {
    BodiesAppend(sc, k, rs, [r]);
    assert [r][1..] == [];
  }

  lemma AtEnd(sc: seq<Spec>, k: nat, rs: seq<Raw>, start: nat, span: nat, pos: nat, n: nat)
    requires k < |sc| && SpanIs(sc, k, rs, |Flat(rs)|, start, span) && pos == span
    requires FirstHit(sc, k, rs).Some? ==> n <= LastHit(sc, k, rs).value + 1 && start + pos == Off(rs, n)
    ensures Rest(sc, k, rs, n) == []
  {
    hide FirstHit, LastHit, Flat, Size, Hits, Off;
    if LastHit(sc, k, rs).Some? {
      var l := LastHit(sc, k, rs).value;
      if n <= l {
        OffStrict(rs, n, l + 1);
      }
      assert rs[l + 1..l + 1] == [];
    }
  }

  lemma HeaderThenBody(sc: seq<Spec>, it: Item)
    requires it.k < |sc|
    ensures
      var code := Code(sc[it.k].ty);
      var head := ToLE(sc[it.k].id, 2) + ToLE(code, 2);
      Encode(RawOf(sc, it)) == (if code > 4 then head + ToLE(|it.body|, 4) else head) + it.body
  {
  }

  lemma {:induction false} AddOne(sc: seq<Spec>, its: seq<Item>, it: Item)
    requires ItemsOk(sc, its) && ItemOk(sc, it)
    ensures ItemsOk(sc, its + [it])
    ensures Flat(RawsOf(sc, its + [it])) == Flat(RawsOf(sc, its)) + Encode(RawOf(sc, it))
    ensures forall k :: Added(k, its + [it]) == Added(k, its) + if it.k == k then [it.body] else []
  {
    hide Encode, RawOf;
    forall k ensures Added(k, its + [it]) == Added(k, its) + if it.k == k then [it.body] else [] {
      AddedSnoc(k, its, it);
    }
    if its == [] {
      assert its + [it] == [it] && [it][1..] == [];
      assert RawsOf(sc, [it]) == [RawOf(sc, it)];
      assert Flat([RawOf(sc, it)]) == Encode(RawOf(sc, it)) + Flat([]);
    } else {
      AddOne(sc, its[1..], it);
      assert (its + [it])[1..] == its[1..] + [it];
      assert RawsOf(sc, its + [it])[1..] == RawsOf(sc, its[1..] + [it]);
      assert RawsOf(sc, its)[1..] == RawsOf(sc, its[1..]);
      Assoc(Encode(RawOf(sc, its[0])), Flat(RawsOf(sc, its[1..])), Encode(RawOf(sc, it)));
    }
  }

  lemma {:induction false} AddedSnoc(k: nat, its: seq<Item>, it: Item)
    ensures Added(k, its + [it]) == Added(k, its) + if it.k == k then [it.body] else []
  {
    if its == [] {
      assert its + [it] == [it] && [it][1..] == [];
    } else {
      AddedSnoc(k, its[1..], it);
      assert (its + [it])[1..] == its[1..] + [it];
      Assoc(if its[0].k == k then [its[0].body] else [], Added(k, its[1..]), if it.k == k then [it.body] else []);
    }
  }

  // ---- from writer to parser ----

  /** An entry that may occur once has not been added yet when its one value is. */
  lemma NotYet(sc: seq<Spec>, its: seq<Item>, i: nat)
    requires Writable(sc, its) && i < |its| && its[i].k < |sc| && sc[its[i].k].card in {Optional, Required}
    ensures |Added(its[i].k, its[..i])| == 0
  {
    hide ItemsOk;
    var k := its[i].k;
    assert its == its[..i] + ([its[i]] + its[i + 1..]);
    AddedAppend(k, its[..i], [its[i]] + its[i + 1..]);
    AddedAppend(k, [its[i]], its[i + 1..]);
    assert [its[i]][1..] == [];
    assert CardOk(sc[k].card, |Added(k, its)|);
  }

  lemma {:induction false} AddedAppend(k: nat, a: seq<Item>, b: seq<Item>)
    ensures Added(k, a + b) == Added(k, a) + Added(k, b)
  {
    if a == [] {
      assert a + b == b;
    } else {
      AddedAppend(k, a[1..], b);
      assert (a + b)[1..] == a[1..] + b;
      Assoc(if a[0].k == k then [a[0].body] else [], Added(k, a[1..]), Added(k, b));
    }
  }

  /** All values added, and the message finished. */
  method WriteAll(sc: seq<Spec>, ins: seq<Input>) returns (out: seq<byte>)
    requires Unambiguous(sc) && Sendable(sc, ins)
    ensures ItemsOk(sc, ItemsOf(sc, ins)) && Accepts(sc, out) && Scan(sc, out) == Some(RawsOf(sc, ItemsOf(sc, ins)))
  {
    hide Unambiguous, Accepts, Scan, Encode, Flat, BodyOf, ValueFits, Added, Given, ItemOk, RawsOf, RawOf, ItemsOf;
    SendableWritable(sc, ins);
    var w := new Writer(sc);
    ghost var its := ItemsOf(sc, ins);
    for i := 0 to |ins|
      invariant fresh(w) && w.sc == sc && w.Valid() && w.items == its[..i]
    {
      if sc[ins[i].k].card in {Optional, Required} {
        NotYet(sc, its, i);
      }
      w.Add(ins[i].k, ins[i].v);
    }
    assert its[..|its|] == its;
    var used := w.Finish();
    out := w.out;
  }

  /** All values of all entries. */
  method ReadAll(p: Parser) returns (values: seq<seq<Value>>)
    requires p.Valid() && forall k :: 0 <= k < |p.sc| ==> p.Remaining(k) == Bodies(p.sc, k, p.raws)
    modifies p
    ensures p.Valid() && |values| == |p.sc|
    ensures forall k :: 0 <= k < |p.sc| ==>
      values[k] == Decoded(p.sc[k].ty, Bodies(p.sc, k, old(p.raws))) && p.Remaining(k) == []
  {
    hide Message, Unambiguous, Bodies, Rest, Flat, Decoded;
    values := [];
    for k := 0 to |p.sc|
      invariant p.Valid() && |values| == k && p.raws == old(p.raws)
      invariant forall j :: 0 <= j < k ==>
        values[j] == Decoded(p.sc[j].ty, Bodies(p.sc, j, old(p.raws))) && p.Remaining(j) == []
      invariant forall j :: k <= j < |p.sc| ==> p.Remaining(j) == Bodies(p.sc, j, old(p.raws))
    {
      var v := p.GetAll(k);
      values := values + [v];
    }
  }

  /**
   * End to end: for every unambiguous schema and every sequence of values that
   * meets its cardinalities, the parser accepts what the writer wrote, its
   * getters return for each entry exactly the values added, in order, and then
   * it has got everything.
   */
  method Transfer(sc: seq<Spec>, ins: seq<Input>) returns (accepted: bool, values: seq<seq<Value>>, all: bool)
    requires Unambiguous(sc) && Sendable(sc, ins)
    ensures accepted && all && |values| == |sc|
    ensures forall k :: 0 <= k < |sc| ==> values[k] == Given(k, ins)
  {
    hide Unambiguous, Accepts, Scan, Bodies, Flat, Message, Rest, Writable, Decoded, Given;
    SendableWritable(sc, ins);
    ghost var its := ItemsOf(sc, ins);
    var b := WriteAll(sc, ins);
    var p := new Parser(sc);
    accepted := p.Init(b);
    ItemsAre(sc, its);
    forall k | 0 <= k < |sc| ensures Decoded(sc[k].ty, Bodies(sc, k, p.raws)) == Given(k, ins) {
      AddedBodies(sc, its, k);
      GivenDecoded(sc, ins, k);
    }
    values := ReadAll(p);
    all := p.GotEverything();
  }

  lemma ItemsAre(sc: seq<Spec>, its: seq<Item>)
    requires Writable(sc, its)
    ensures ItemsOk(sc, its)
  {
  }
}
