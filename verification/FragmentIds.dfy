/**
 * The chunks of a sender's run, by the number of the packet they were cut from:
 * which ids they carry, and that a packet whose chunks all arrive is delivered
 * whatever becomes of the others.
 */
module FragmentIds {
  import opened Bytes
  import opened Lists
  import opened FragmentModel
  import opened FragmentReference
  import opened FragmentRefinement
  import opened FragmentDisassembler
  import opened FragmentRoundTrip
  import opened FragmentPieces
  import opened FragmentAnyOrder

  const IDS: nat := 0x1_0000

  /** A chunk of the `n`-th input packet. */
  datatype Mark = Mark(n: nat, c: Chunk)

  function Marked(n: nat, cs: seq<Chunk>): (ms: seq<Mark>)
    ensures |ms| == |cs| && forall i :: 0 <= i < |cs| ==> ms[i] == Mark(n, cs[i])
  {
    seq(|cs|, i requires 0 <= i < |cs| => Mark(n, cs[i]))
  }

  function Chunks(ms: seq<Mark>): (cs: seq<Chunk>)
    ensures |cs| == |ms| && forall i :: 0 <= i < |ms| ==> cs[i] == ms[i].c
  {
    seq(|ms|, i requires 0 <= i < |ms| => ms[i].c)
  }

  /** The chunks of packet `k`, in order. */
  function OfPacket(ms: seq<Mark>, k: nat): seq<Chunk> {
    if ms == [] then [] else (if ms[0].n == k then [ms[0].c] else []) + OfPacket(ms[1..], k)
  }

  lemma {:induction false} OfPacketAppend(a: seq<Mark>, b: seq<Mark>, k: nat)
    ensures OfPacket(a + b, k) == OfPacket(a, k) + OfPacket(b, k)
  {
    if a == [] {
      assert a + b == b;
    } else {
      OfPacketAppend(a[1..], b, k);
      assert (a + b)[1..] == a[1..] + b;
      Assoc(if a[0].n == k then [a[0].c] else [], OfPacket(a[1..], k), OfPacket(b, k));
    }
  }

  lemma {:induction false} OfMarked(n: nat, cs: seq<Chunk>, k: nat)
    ensures OfPacket(Marked(n, cs), k) == if k == n then cs else []
    decreases |cs|
  {
    if cs != [] {
      OfMarked(n, cs[1..], k);
      assert Marked(n, cs)[1..] == Marked(n, cs[1..]);
      assert [cs[0]] + cs[1..] == cs;
    }
  }

  // ---- the log of a run ----

  /** The output packets by their chunks, the part-written one, and how many input packets are finished. */
  datatype Log = Log(packets: seq<seq<Mark>>, part: seq<Mark>, n: nat)

  function Flat(packets: seq<seq<Mark>>): seq<Mark> {
    if packets == [] then [] else Flat(packets[..|packets| - 1]) + packets[|packets| - 1]
  }

  /** All chunks, in the order they were written. */
  function All(l: Log): seq<Mark> {
    Flat(l.packets) + l.part
  }

  /** The chunks this event writes. */
  function Cuts(d: Disassembler, e: Event): seq<Chunk>
    requires Ready(d) && Enabled(d, e)
  {
    match e
    case InputSend(data) => if d.out.None? then [] else Cut(d, data, 0, |d.out.value|)
    case OutputRecv => if d.input.None? then [] else Cut(d, d.input.value, d.inUsed, 0)
    case Timer => []
  }

  function Logged(l: Log, d: Disassembler, e: Event): Log
    requires Ready(d) && Enabled(d, e)
  {
    var all, n := l.part + Marked(l.n, Cuts(d, e)), l.n + |Finished(d, e)|;
    if Step(d, e).1.Some? then Log(l.packets + [all], [], n) else Log(l.packets, all, n)
  }

  ghost function LogOf(l: Log, d: Disassembler, es: seq<Event>): Log
    requires Ready(d) && Runs(d, es)
    decreases |es|
  {
    if es == [] then l else StepKeepsReady(d, es[0]); LogOf(Logged(l, d, es[0]), Step(d, es[0]).0, es[1..])
  }

  lemma AllGrows(l: Log, d: Disassembler, e: Event)
    requires Ready(d) && Enabled(d, e)
    ensures All(Logged(l, d, e)) == All(l) + Marked(l.n, Cuts(d, e))
  {
    hide Cuts, Marked;
    var ms := Marked(l.n, Cuts(d, e));
    var packets := l.packets + [l.part + ms];
    assert packets[..|l.packets|] == l.packets;
    assert Flat(l.packets) + (l.part + ms) + [] == Flat(l.packets) + l.part + ms;
    assert Flat(l.packets) + (l.part + ms) == Flat(l.packets) + l.part + ms;
  }

  // ---- the log is what is on the wire ----

  /** The part-written packet holds the chunks of the log. */
  ghost predicate Holds(d: Disassembler, l: Log) {
    Written(d.out) == EncodeAll(Chunks(l.part)) && forall c :: c in Chunks(l.part) ==> Fits(c)
  }

  lemma ChunksAppend(a: seq<Mark>, n: nat, cs: seq<Chunk>)
    ensures Chunks(a + Marked(n, cs)) == Chunks(a) + cs
  {
  }

  lemma CutsFit(d: Disassembler, e: Event)
    requires Ready(d) && Enabled(d, e)
    ensures forall c :: c in Cuts(d, e) ==> Fits(c)
  {
    match e
    case InputSend(data) =>
      if d.out.Some? {
        CutPieces(d, data, 0, |d.out.value|);
        PiecesFit(d, data, 0, Cuts(d, e));
      }
    case OutputRecv =>
      if d.input.Some? {
        CutPieces(d, d.input.value, d.inUsed, 0);
        PiecesFit(d, d.input.value, d.inUsed, Cuts(d, e));
      }
    case Timer =>
  }

  /** What an event puts out is what the log has of it. */
  lemma StepOnWire(d: Disassembler, l: Log, e: Event)
    requires Ready(d) && Enabled(d, e) && Holds(d, l)
    ensures
      var (d', p) := Step(d, e);
      var l' := Logged(l, d, e);
      && Holds(d', l')
      && |l'.packets| == |l.packets| + (if p.Some? then 1 else 0) && l.packets <= l'.packets
      && (p.Some? ==> Parse(p.value) == Chunks(l'.packets[|l.packets|]))
  {
    hide Cut, Encode, Fits, Parse, Finished;
    var cs := Cuts(d, e);
    CutsFit(d, e);
    ChunksAppend(l.part, l.n, cs);
    EncodeAllAppend(Chunks(l.part), cs);
    ParseEncode(Chunks(l.part) + cs);
    assert EncodeAll([]) == [];
    assert EncodeAll(Chunks(l.part)) + [] == EncodeAll(Chunks(l.part));
  }

  lemma {:induction false} RunOnWire(d: Disassembler, l: Log, es: seq<Event>)
    requires Ready(d) && Runs(d, es) && Holds(d, l)
    ensures
      var l', ps := LogOf(l, d, es), Emitted(d, es);
      && |l'.packets| == |l.packets| + |ps| && l.packets <= l'.packets
      && forall i :: 0 <= i < |ps| ==> Parse(ps[i]) == Chunks(l'.packets[|l.packets| + i])
    decreases |es|
  {
    hide Ready, Enabled, Step, Holds, Logged, Parse, Chunks;
    if es != [] {
      StepKeepsReady(d, es[0]);
      StepOnWire(d, l, es[0]);
      var (d1, p) := Step(d, es[0]);
      var l1 := Logged(l, d, es[0]);
      RunOnWire(d1, l1, es[1..]);
      var l', ps := LogOf(l, d, es), Emitted(d, es);
      assert ps == (if p.Some? then [p.value] else []) + Emitted(d1, es[1..]);
      forall i | 0 <= i < |ps| ensures Parse(ps[i]) == Chunks(l'.packets[|l.packets| + i]) {
        if p.Some? && i > 0 {
          assert ps[i] == Emitted(d1, es[1..])[i - 1];
        } else if p.Some? {
          assert l1.packets[|l.packets|] == l'.packets[|l.packets|];
        } else {
          assert ps[i] == Emitted(d1, es[1..])[i];
        }
      }
    }
  }

  // ---- ids ----

  /** Every chunk carries the id of its packet, counted from `first`. */
  ghost predicate Numbered(ms: seq<Mark>, first: nat) {
    forall m :: m in ms ==> m.c.id == (first + m.n) % IDS
  }

  lemma {:induction false} CutIds(d: Disassembler, data: seq<byte>, used: nat, cs: seq<Chunk>)
    requires Pieces(d, data, used, cs)
    ensures forall c :: c in cs ==> c.id == d.frameId
    decreases |cs|
  {
    if cs != [] {
      CutIds(d, data, End(cs[0]), cs[1..]);
    }
  }

  lemma CutsIds(d: Disassembler, e: Event)
    requires Ready(d) && Enabled(d, e)
    ensures forall c :: c in Cuts(d, e) ==> c.id == d.frameId
  {
    match e
    case InputSend(data) =>
      if d.out.Some? {
        CutPieces(d, data, 0, |d.out.value|);
        CutIds(d, data, 0, Cuts(d, e));
      }
    case OutputRecv =>
      if d.input.Some? {
        CutPieces(d, d.input.value, d.inUsed, 0);
        CutIds(d, d.input.value, d.inUsed, Cuts(d, e));
      }
    case Timer =>
  }

  lemma StepNumbered(d: Disassembler, l: Log, e: Event, first: nat)
    requires Ready(d) && Enabled(d, e) && d.frameId == (first + l.n) % IDS && Numbered(All(l), first)
    ensures Step(d, e).0.frameId == (first + Logged(l, d, e).n) % IDS && Numbered(All(Logged(l, d, e)), first)
  {
    hide Cut, EncodeAll, All, Cuts, Logged;
    CutsIds(d, e);
    AllGrows(l, d, e);
    NextId(d, l, e, first);
  }

  lemma NextId(d: Disassembler, l: Log, e: Event, first: nat)
    requires Ready(d) && Enabled(d, e) && d.frameId == (first + l.n) % IDS
    ensures Step(d, e).0.frameId == (first + Logged(l, d, e).n) % IDS
  {
    hide Cut, EncodeAll, Cuts, Marked;
    assert ((first + l.n) % IDS + 1) % IDS == (first + (l.n + 1)) % IDS;
  }

  lemma {:induction false} RunNumbered(d: Disassembler, l: Log, es: seq<Event>, first: nat)
    requires Ready(d) && Runs(d, es) && d.frameId == (first + l.n) % IDS && Numbered(All(l), first)
    ensures Numbered(All(LogOf(l, d, es)), first)
    decreases |es|
  {
    hide Ready, Enabled, Step, Numbered, Logged, All;
    if es != [] {
      StepKeepsReady(d, es[0]);
      StepNumbered(d, l, es[0], first);
      RunNumbered(Step(d, es[0]).0, Logged(l, d, es[0]), es[1..], first);
    }
  }

  // ---- the chunks of one packet ----

  /** The first part of a frame, and one more call of write_chunks. */
  lemma {:induction false} CutWhole(d: Disassembler, qs: seq<Chunk>, data: seq<byte>, used: nat, outLen: nat)
    requires Split(qs, d.frameId, data, used) && Counted(d, |qs|, used)
    requires d.chunkMtu != 0 && outLen + HEADER < d.outputMtu && (used < |data| || used == |data| == 0)
    requires used > 0 && outLen > 0 ==> CountFull(d, |qs|, used)
    ensures
      var cs := Cut(d, data, used, outLen);
      var end := End(cs[|cs| - 1]);
      if end == |data| then Whole(qs + cs, d.frameId, data) && |qs + cs| <= Most(d, |data|)
      else 0 < end < |data| && Split(qs + cs, d.frameId, data, end) && Counted(d, |qs + cs|, end)
    decreases |data| - used
  {
    hide Cut, ChunkLen, CountOk, CountFull, MaxChunks, Split, Whole;
    var cs := Cut(d, data, used, outLen);
    CutStep(d, data, used, outLen);
    var c := cs[0];
    var n := |c.data|;
    if c.last {
      assert cs == [c];
      WholeSnoc(qs, d.frameId, data, used, c);
      LastCount(d, |qs|, used, |data|);
    } else {
      NextCount(d, |qs|, data, used, outLen);
      SplitSnoc(qs, d.frameId, data, used, c);
      if |cs| > 1 {
        var rest := Cut(d, data, used + n, outLen + HEADER + n);
        assert cs == [c] + rest && cs[|cs| - 1] == rest[|rest| - 1];
        CutWhole(d, qs + [c], data, used + n, outLen + HEADER + n);
        assert qs + [c] + rest == qs + cs;
      } else {
        assert cs == [c];
      }
    }
  }

  /** The most chunks a frame of this length is cut into. */
  function Most(d: Disassembler, len: nat): nat
    requires HEADER < d.outputMtu
  {
    if len == 0 then 1 else MaxChunks(d, len)
  }

  lemma LastCount(d: Disassembler, n: nat, used: nat, len: nat)
    requires Counted(d, n, used) && HEADER < d.outputMtu && d.chunkMtu != 0 && (used < len || used == len == 0)
    ensures n + 1 <= Most(d, len)
  {
    hide MaxChunks, CountOk;
    if len > 0 {
      assert CountOk(d, n, used) by { NoneSent(d, n, used); }
      CountRoom(d, n, used, len, len);
    }
  }

  lemma NoneSent(d: Disassembler, n: nat, used: nat)
    requires Counted(d, n, used) && HEADER < d.outputMtu && d.chunkMtu != 0
    ensures CountOk(d, n, used)
  {
  }

  lemma SplitSnoc(qs: seq<Chunk>, id: nat, data: seq<byte>, used: nat, c: Chunk)
    requires Split(qs, id, data, used) && c.id == id && c.start == used && !c.last && 0 < |c.data|
    requires End(c) <= |data| && c.data == data[used..End(c)]
    ensures Split(qs + [c], id, data, End(c))
  {
    assert (qs + [c])[..|qs|] == qs;
  }

  lemma WholeSnoc(qs: seq<Chunk>, id: nat, data: seq<byte>, used: nat, c: Chunk)
    requires Split(qs, id, data, used) && c.id == id && c.start == used && c.last && End(c) == |data|
    requires c.data == data[used..] && (used < |data| || used == |data| == 0)
    ensures Whole(qs + [c], id, data)
  {
    assert (qs + [c])[..|qs|] == qs;
    assert used == 0 ==> qs == [];
  }

  /**
   * What the log has of packet `k`: nothing if it has not come, the first
   * `inUsed` bytes if it is being sent, and all of it if it is finished.
   */
  ghost predicate Tracks(d: Disassembler, l: Log, first: nat, ins: seq<seq<byte>>, k: nat)
    requires HEADER < d.outputMtu
  {
    && |ins| == l.n + |Waiting(d)| && (d.input.Some? ==> ins[l.n] == d.input.value)
    && var cs := OfPacket(All(l), k);
       if k < l.n then Whole(cs, (first + k) % IDS, ins[k]) && |cs| <= Most(d, |ins[k]|)
       else if k == l.n && d.input.Some? then Split(cs, (first + k) % IDS, ins[k], d.inUsed) && Counted(d, |cs|, d.inUsed)
       else cs == []
  }

  /** The event goes on with packet `l.n`, whose data are `data`. */
  lemma WriteTracks(d: Disassembler, l: Log, e: Event, first: nat, ins: seq<seq<byte>>, data: seq<byte>, used: nat, outLen: nat)
    requires Ready(d) && Enabled(d, e) && |ins| == l.n + 1 && ins[l.n] == data && d.frameId == (first + l.n) % IDS
    requires outLen + HEADER < d.outputMtu && (used < |data| || used == |data| == 0) && (used > 0 ==> outLen == 0)
    requires Cuts(d, e) == Cut(d, data, used, outLen)
    requires var qs := OfPacket(All(l), l.n); Split(qs, d.frameId, data, used) && Counted(d, |qs|, used)
    requires
      var (d', p), cs := Step(d, e), Cuts(d, e);
      var end := End(cs[|cs| - 1]);
      && d'.inUsed == end && d'.input == (if end == |data| then None else Some(data))
      && d'.outputMtu == d.outputMtu && d'.chunkMtu == d.chunkMtu
      && Logged(l, d, e).n == l.n + (if end == |data| then 1 else 0)
    ensures HEADER < Step(d, e).0.outputMtu && Tracks(Step(d, e).0, Logged(l, d, e), first, ins, l.n)
  {
    hide Cut, Split, Whole, CountOk, Step, Logged, Cuts, All, MaxChunks, OfPacket, Marked, Most, Counted;
    var qs, cs := OfPacket(All(l), l.n), Cuts(d, e);
    CutWhole(d, qs, data, used, outLen);
    AllGrows(l, d, e);
    OfPacketAppend(All(l), Marked(l.n, cs), l.n);
    OfMarked(l.n, cs, l.n);
    SameParams(d, Step(d, e).0, |qs + cs|, End(cs[|cs| - 1]), |data|);
  }

  lemma SameParams(d: Disassembler, d': Disassembler, n: nat, used: nat, len: nat)
    requires d'.outputMtu == d.outputMtu && d'.chunkMtu == d.chunkMtu
    ensures HEADER < d.outputMtu ==> Most(d', len) == Most(d, len)
    ensures Counted(d', n, used) <==> Counted(d, n, used)
  {
  }

  /** Another packet's chunks are not touched. */
  lemma OthersTrack(d: Disassembler, l: Log, e: Event, k: nat)
    requires Ready(d) && Enabled(d, e) && (k != l.n || Cuts(d, e) == [])
    ensures OfPacket(All(Logged(l, d, e)), k) == OfPacket(All(l), k)
  {
    hide Logged, Cuts, All;
    AllGrows(l, d, e);
    OfPacketAppend(All(l), Marked(l.n, Cuts(d, e)), k);
    OfMarked(l.n, Cuts(d, e), k);
    assert OfPacket(All(l), k) + [] == OfPacket(All(l), k);
  }

  function Came(e: Event): seq<seq<byte>> {
    if e.InputSend? then [e.data] else []
  }

  /** What an event does to the waiting packet and to the count of finished ones. */
  lemma StepWaits(d: Disassembler, l: Log, e: Event, ins: seq<seq<byte>>)
    requires Ready(d) && Enabled(d, e) && |ins| == l.n + |Waiting(d)| && (d.input.Some? ==> ins[l.n] == d.input.value)
    ensures
      var d', l' := Step(d, e).0, Logged(l, d, e);
      && d'.outputMtu == d.outputMtu && d'.chunkMtu == d.chunkMtu
      && |ins + Came(e)| == l'.n + |Waiting(d')| && (d'.input.Some? ==> (ins + Came(e))[l'.n] == d'.input.value)
      && (l'.n == l.n || (l'.n == l.n + 1 && d'.input.None?))
      && (Cuts(d, e) == [] ==>
            l'.n == l.n && d'.input == (if e.InputSend? then Some(e.data) else d.input)
            && (d'.input.Some? ==> d'.inUsed == if e.InputSend? then 0 else d.inUsed))
  {
    hide Cut, EncodeAll, Marked;
  }

  /** The event writes nothing of packet `l.n`. */
  lemma IdleTracks(d: Disassembler, l: Log, e: Event, first: nat, ins: seq<seq<byte>>, k: nat)
    requires Ready(d) && Enabled(d, e) && Tracks(d, l, first, ins, k) && (k != l.n || Cuts(d, e) == [])
    ensures HEADER < Step(d, e).0.outputMtu && Tracks(Step(d, e).0, Logged(l, d, e), first, ins + Came(e), k)
  {
    hide Cut, Split, Whole, CountOk, MaxChunks, All, EncodeAll, Marked, Counted, Step, Logged, Cuts, Most;
    OthersTrack(d, l, e, k);
    StepWaits(d, l, e, ins);
    var d', ins' := Step(d, e).0, ins + Came(e);
    var cs := OfPacket(All(l), k);
    SameParams(d, d', |cs|, d.inUsed, if k < |ins| then |ins[k]| else 0);
    assert k < |ins| ==> ins'[k] == ins[k];
    if k == l.n && d'.input.Some? {
      NothingSent(d', (first + k) % IDS, d'.input.value);
    }
  }

  lemma NothingSent(d: Disassembler, id: nat, data: seq<byte>)
    ensures Split([], id, data, 0) && Counted(d, 0, 0)
  {
  }

  lemma StepTracks(d: Disassembler, l: Log, e: Event, first: nat, ins: seq<seq<byte>>, k: nat)
    requires Ready(d) && Enabled(d, e) && d.frameId == (first + l.n) % IDS && Tracks(d, l, first, ins, k)
    ensures HEADER < Step(d, e).0.outputMtu && Tracks(Step(d, e).0, Logged(l, d, e), first, ins + Came(e), k)
  {
    hide Cut, Split, Whole, CountOk, MaxChunks, All, EncodeAll, Marked, Counted;
    if k == l.n && Cuts(d, e) != [] {
      match e
      case InputSend(data) =>
        NothingSent(d, d.frameId, data);
        WriteTracks(d, l, e, first, ins + [data], data, 0, |d.out.value|);
      case OutputRecv =>
        assert ins + Came(e) == ins;
        WriteTracks(d, l, e, first, ins, d.input.value, d.inUsed, 0);
      case Timer =>
    } else {
      IdleTracks(d, l, e, first, ins, k);
    }
  }

  lemma {:induction false} RunTracks(d: Disassembler, l: Log, es: seq<Event>, first: nat, ins: seq<seq<byte>>, k: nat)
    requires Ready(d) && Runs(d, es) && d.frameId == (first + l.n) % IDS && Tracks(d, l, first, ins, k)
    ensures Ready(Final(d, es)) && Tracks(Final(d, es), LogOf(l, d, es), first, ins + Inputs(es), k)
    decreases |es|
  {
    hide Enabled, Step, Tracks, Logged;
    if es == [] {
      assert ins + [] == ins;
    } else {
      StepKeepsReady(d, es[0]);
      StepTracks(d, l, es[0], first, ins, k);
      NextId(d, l, es[0], first);
      RunTracks(Step(d, es[0]).0, Logged(l, d, es[0]), es[1..], first, ins + Came(es[0]), k);
      assert ins + Came(es[0]) + Inputs(es[1..]) == ins + Inputs(es);
    }
  }

  // ---- the theorems ----

  /** A sender that holds nothing. */
  ghost predicate Blank(d: Disassembler) {
    Ready(d) && d.input.None? && d.out.None?
  }

  /** The log of a run from such a sender. */
  ghost function History(d: Disassembler, es: seq<Event>): (l: Log)
    requires Blank(d) && Runs(d, es)
    ensures |l.packets| == |Emitted(d, es)| && l.n <= |Inputs(es)|
  {
    HistoryFacts(d, es);
    LogOf(Log([], [], 0), d, es)
  }

  lemma HistoryFacts(d: Disassembler, es: seq<Event>)
    requires Blank(d) && Runs(d, es)
    ensures
      var l := LogOf(Log([], [], 0), d, es);
      |l.packets| == |Emitted(d, es)| && l.n <= |Inputs(es)|
  {
    hide Runs, OfPacket, Emitted, LogOf, Parse, Inputs, Final;
    BlankStart(d, 0);
    RunOnWire(d, Log([], [], 0), es);
    RunTracks(d, Log([], [], 0), es, d.frameId, [], 0);
    assert [] + Inputs(es) == Inputs(es);
  }

  /** The id of the `k`-th input packet. */
  function IdOf(d: Disassembler, k: nat): nat {
    (d.frameId + k) % IDS
  }

  /**
   * In every run the output packets consist of the logged chunks; all chunks of
   * the k-th input packet carry the k-th id after the first; and the chunks of
   * a finished packet are a cut of it, of no more chunks than the receiver is
   * to have room for.
   */
  lemma IdsAscend(d: Disassembler, es: seq<Event>, k: nat)
    requires Blank(d) && Runs(d, es)
    ensures
      var l, ps, ins := History(d, es), Emitted(d, es), Inputs(es);
      && |l.packets| == |ps| && (forall i :: 0 <= i < |ps| ==> Parse(ps[i]) == Chunks(l.packets[i]))
      && (forall m :: m in All(l) ==> m.c.id == IdOf(d, m.n))
      && |ins| == l.n + |Waiting(Final(d, es))|
      && (k < l.n ==>
            Whole(OfPacket(All(l), k), IdOf(d, k), ins[k]) && |OfPacket(All(l), k)| <= Most(d, |ins[k]|))
  {
    hide Runs, Whole, OfPacket, Emitted, LogOf, Parse, MaxChunks, Inputs, Split, Counted, Final;
    var l0 := Log([], [], 0);
    BlankStart(d, k);
    RunOnWire(d, l0, es);
    RunNumbered(d, l0, es, d.frameId);
    RunTracks(d, l0, es, d.frameId, [], k);
    assert [] + Inputs(es) == Inputs(es);
    RunParams(d, es);
    SameParams(d, Final(d, es), 0, 0, if k < |Inputs(es)| then |Inputs(es)[k]| else 0);
  }

  lemma BlankStart(d: Disassembler, k: nat)
    requires Blank(d)
    ensures
      var l0 := Log([], [], 0);
      Holds(d, l0) && d.frameId == (d.frameId + l0.n) % IDS && Numbered(All(l0), d.frameId) && Tracks(d, l0, d.frameId, [], k)
  {
    assert EncodeAll([]) == [] && All(Log([], [], 0)) == [];
  }

  lemma {:induction false} RunParams(d: Disassembler, es: seq<Event>)
    requires Ready(d) && Runs(d, es)
    ensures Final(d, es).outputMtu == d.outputMtu && Final(d, es).chunkMtu == d.chunkMtu
    decreases |es|
  {
    hide Cut, EncodeAll;
    if es != [] {
      StepKeepsReady(d, es[0]);
      RunParams(Step(d, es[0]).0, es[1..]);
    }
  }

  /** Any IDS consecutive packets have different ids. */
  lemma IdsDiffer(d: Disassembler, j: nat, k: nat)
    requires j != k && j < k + IDS && k < j + IDS
    ensures IdOf(d, j) != IdOf(d, k)
  {
  }

  // ---- losing and reordering packets ----

  ghost predicate Within(sel: seq<nat>, n: nat) {
    forall i :: 0 <= i < |sel| ==> sel[i] < n
  }

  /** The packets with these numbers, in this order. */
  ghost function Select<T>(ps: seq<T>, sel: seq<nat>): (r: seq<T>)
    requires Within(sel, |ps|)
    ensures |r| == |sel| && forall i :: 0 <= i < |sel| ==> r[i] == ps[sel[i]]
  {
    seq(|sel|, i requires 0 <= i < |sel| => ps[sel[i]])
  }

  /** The chunks of packet `k` in the selected output packets. */
  ghost function Gathered(packets: seq<seq<Mark>>, sel: seq<nat>, k: nat): seq<Chunk>
    requires Within(sel, |packets|)
  {
    if sel == [] then []
    else OfPacket(packets[sel[0]], k) + Gathered(packets, sel[1..], k)
  }

  lemma {:induction false} GatherRemove(packets: seq<seq<Mark>>, sel: seq<nat>, k: nat, j: nat)
    requires Within(sel, |packets|) && Within(Remove(sel, j), |packets|) && j in sel && j < |packets|
    ensures multiset(Gathered(packets, sel, k))
            == multiset(Gathered(packets, Remove(sel, j), k)) + multiset(OfPacket(packets[j], k))
  {
    hide OfPacket;
    var x, y := OfPacket(packets[sel[0]], k), Gathered(packets, sel[1..], k);
    Joined(x, y);
    if sel[0] != j {
      var rest := Remove(sel[1..], j);
      assert Remove(sel, j) == [sel[0]] + rest && ([sel[0]] + rest)[1..] == rest;
      assert Within(rest, |packets|) by { assert forall i :: 0 <= i < |rest| ==> rest[i] == Remove(sel, j)[i + 1]; }
      GatherRemove(packets, sel[1..], k, j);
      Joined(x, Gathered(packets, rest, k));
    } else {
      assert Remove(sel, j) == sel[1..];
    }
  }

  lemma Joined<T>(a: seq<T>, b: seq<T>)
    ensures multiset(a + b) == multiset(a) + multiset(b)
  {
  }

  lemma {:induction false} GatherFewer(packets: seq<seq<Mark>>, sel: seq<nat>, k: nat)
    requires packets != [] && Within(sel, |packets| - 1)
    ensures Gathered(packets, sel, k) == Gathered(packets[..|packets| - 1], sel, k)
  {
    if sel != [] {
      assert sel[0] in sel;
      GatherFewer(packets, sel[1..], k);
    }
  }

  lemma WithoutLast(sel: seq<nat>, n: nat)
    requires Within(sel, n + 1) && NoDup(sel)
    ensures Within(Remove(sel, n), n) && NoDup(Remove(sel, n)) && forall j: nat :: j in sel && j != n ==> j in Remove(sel, n)
  {
    var r := Remove(sel, n);
    forall i | 0 <= i < |r| ensures r[i] < n {
      assert r[i] in r && r[i] in sel;
    }
  }

  lemma GatherLast(packets: seq<seq<Mark>>, sel: seq<nat>, k: nat)
    requires packets != [] && Within(sel, |packets|) && NoDup(sel)
    requires |packets| - 1 in sel || OfPacket(packets[|packets| - 1], k) == []
    ensures
      var n: nat := |packets| - 1;
      && Within(Remove(sel, n), n)
      && multiset(Gathered(packets, sel, k))
         == multiset(Gathered(packets[..n], Remove(sel, n), k)) + multiset(OfPacket(packets[n], k))
  {
    hide OfPacket, Remove, NoDup, Gathered;
    var n: nat := |packets| - 1;
    WithoutLast(sel, n);
    GatherFewer(packets, Remove(sel, n), k);
    if n in sel {
      assert Within(Remove(sel, n), |packets|);
      GatherRemove(packets, sel, k, n);
    } else {
      assert Remove(sel, n) == sel && multiset(OfPacket(packets[n], k)) == multiset{};
    }
  }

  /** If every output packet with chunks of packet `k` is selected once, all its chunks are there. */
  lemma {:induction false} GatherAll(packets: seq<seq<Mark>>, sel: seq<nat>, k: nat)
    requires Within(sel, |packets|) && NoDup(sel)
    requires forall j: nat :: j < |packets| && OfPacket(packets[j], k) != [] ==> j in sel
    ensures multiset(Gathered(packets, sel, k)) == multiset(OfPacket(Flat(packets), k))
    decreases |packets|
  {
    if packets == [] {
      assert sel == [];
    } else {
      hide OfPacket, Remove, NoDup, Gathered;
      var n: nat := |packets| - 1;
      var init := packets[..n];
      WithoutLast(sel, n);
      GatherLast(packets, sel, k);
      GatherAll(init, Remove(sel, n), k);
      OfPacketAppend(Flat(init), packets[n], k);
      Joined(OfPacket(Flat(init), k), OfPacket(packets[n], k));
    }
  }

  /** The chunks with the id of packet `k` are those of packet `k` if no packet IDS or more away is among them. */
  lemma {:induction false} OwnIsOfPacket(d: Disassembler, ms: seq<Mark>, k: nat)
    requires forall m :: m in ms ==> m.c.id == IdOf(d, m.n) && m.n < k + IDS && k < m.n + IDS
    ensures Own(Chunks(ms), IdOf(d, k)) == OfPacket(ms, k)
  {
    if ms != [] {
      var m := ms[0];
      assert m in ms;
      if m.n != k {
        IdsDiffer(d, m.n, k);
      }
      OwnIsOfPacket(d, ms[1..], k);
      assert Chunks(ms)[1..] == Chunks(ms[1..]);
    }
  }

  lemma {:induction false} ArrivedIsGathered(d: Disassembler, ps: seq<seq<byte>>, packets: seq<seq<Mark>>, sel: seq<nat>, k: nat)
    requires |ps| == |packets| && (forall i :: 0 <= i < |ps| ==> Parse(ps[i]) == Chunks(packets[i]))
    requires Within(sel, |ps|)
    requires forall i, m :: 0 <= i < |sel| && m in packets[sel[i]] ==> m.c.id == IdOf(d, m.n) && m.n < k + IDS && k < m.n + IDS
    ensures Arrived(Select(ps, sel), IdOf(d, k)) == Gathered(packets, sel, k)
    decreases |sel|
  {
    hide Parse, Own, OfPacket, Chunks;
    if sel != [] {
      var qs := Select(ps, sel);
      assert sel[0] in sel && qs[0] == ps[sel[0]];
      OwnIsOfPacket(d, packets[sel[0]], k);
      assert qs[1..] == Select(ps, sel[1..]);
      ArrivedIsGathered(d, ps, packets, sel[1..], k);
    }
  }

  lemma {:induction false} InFlat(packets: seq<seq<Mark>>, j: nat, m: Mark)
    requires j < |packets| && m in packets[j]
    ensures m in Flat(packets)
    decreases |packets|
  {
    if j < |packets| - 1 {
      InFlat(packets[..|packets| - 1], j, m);
    }
  }

  /** All of packet `k` has gone out, and every output packet with a part of it is selected. */
  ghost predicate Complete(l: Log, sel: seq<nat>, k: nat) {
    && k < l.n && OfPacket(l.part, k) == []
    && forall j: nat :: j < |l.packets| && OfPacket(l.packets[j], k) != [] ==> j in sel
  }

  /** The selected output packets hold nothing of packets IDS or more before or behind packet `k`. */
  ghost predicate Near(l: Log, sel: seq<nat>, k: nat)
    requires Within(sel, |l.packets|)
  {
    forall i, m :: 0 <= i < |sel| && m in l.packets[sel[i]] ==> m.n < k + IDS && k < m.n + IDS
  }

  /**
   * Loss and reordering: of a sender's output packets only those numbered in
   * `sel` arrive, in that order.  An input packet all of whose chunks are among
   * them is delivered, whatever is missing of the others, if they come close
   * enough together and no other frame pushes it out.
   */
  lemma DeliveredDespiteLoss(d: Disassembler, es: seq<Event>, a: Assembler, sel: seq<nat>, k: nat)
    requires Blank(d) && Runs(d, es) && Inv(a)
    requires NoDup(sel) && Within(sel, |Emitted(d, es)|)
    requires Complete(History(d, es), sel, k) && Near(History(d, es), sel, k)
    requires Most(d, |Inputs(es)[k]|) <= a.numChunks && |Inputs(es)[k]| <= a.outputMtu
    requires
      var ps, id := Select(Emitted(d, es), sel), IdOf(d, k);
      Unused(a, id) && Prompt(ps, id, -1, a.tolerance) && Spared(a, ps, id)
    ensures Delivered(a, Select(Emitted(d, es), sel), IdOf(d, k)) == [Inputs(es)[k]]
  {
    hide Runs, Inv, Unused, Prompt, Spared, Delivered, Whole, OfPacket, Emitted, LogOf, Parse, Most, Flat;
    var l, ems, id := History(d, es), Emitted(d, es), IdOf(d, k);
    IdsAscend(d, es, k);
    forall i, m | 0 <= i < |sel| && m in l.packets[sel[i]] ensures m.c.id == IdOf(d, m.n) {
      InFlat(l.packets, sel[i], m);
      assert m in All(l);
    }
    ArrivedIsGathered(d, ems, l.packets, sel, k);
    GatherAll(l.packets, sel, k);
    OfPacketAppend(Flat(l.packets), l.part, k);
    assert OfPacket(Flat(l.packets), k) + [] == OfPacket(Flat(l.packets), k);
    AnyOrder(a, OfPacket(All(l), k), Select(ems, sel), id, Inputs(es)[k]);
  }
}
