/**
 * BProto messages, for any schema: what the generated writers put on the wire,
 * and which byte strings the generated parsers accept.
 */
module BProtoModel {
  import opened Bytes

  datatype Type = Uint8 | Uint16 | Uint32 | Uint64 | Data | ConstData(size: nat)
  datatype Cardinality = Repeated | RequiredRepeated | Optional | Required
  datatype Spec = Spec(id: nat, ty: Type, card: Cardinality)

  /** BPROTO_TYPE_* */
  function Code(t: Type): (c: nat)
    ensures 1 <= c <= 6
  {
    match t
    case Uint8 => 1
    case Uint16 => 2
    case Uint32 => 3
    case Uint64 => 4
    case Data => 5
    case ConstData(_) => 6
  }

  function Width(code: nat): nat {
    if code == 1 then 1 else if code == 2 then 2 else if code == 3 then 4 else 8
  }

  /** An entry on the wire; the body of an integer entry is its little-endian bytes. */
  datatype Raw = Raw(id: nat, code: nat, body: seq<byte>)

  ghost predicate WellFormed(r: Raw) {
    && r.id < 0x1_0000 && 1 <= r.code <= 6
    && (if r.code <= 4 then |r.body| == Width(r.code) else |r.body| < 0x1_0000_0000)
  }

  function Encode(r: Raw): (b: seq<byte>)
    ensures |b| == Size(r) && |b| > 0
  {
    ToLE(r.id, 2) + ToLE(r.code, 2) + if r.code <= 4 then r.body else ToLE(|r.body|, 4) + r.body
  }

  function Size(r: Raw): nat {
    if r.code <= 4 then 4 + |r.body| else 8 + |r.body|
  }

  function Flat(rs: seq<Raw>): seq<byte> {
    if rs == [] then [] else Encode(rs[0]) + Flat(rs[1..])
  }

  /** One turn of a parser's loop: the entry at the front of `b`. */
  function Read(b: seq<byte>): (r: Option<Raw>)
    ensures r.Some? ==> Size(r.value) <= |b|
  {
    if |b| < 4 then None
    else
      var id, code := FromLE(b[0..2]), FromLE(b[2..4]);
      if 1 <= code <= 4 then
        if |b| - 4 < Width(code) then None else Some(Raw(id, code, b[4..4 + Width(code)]))
      else if code == 5 || code == 6 then
        if |b| - 4 < 4 then None
        else
          var len := FromLE(b[4..8]);
          if |b| - 8 < len then None else Some(Raw(id, code, b[8..8 + len]))
      else None
  }

  lemma ReadEncode(r: Raw, rest: seq<byte>)
    requires WellFormed(r)
    ensures Read(Encode(r) + rest) == Some(r) && (Encode(r) + rest)[Size(r)..] == rest
  {
    hide ToLE, FromLE;
    assert r.id < Pow256(2) && r.code < Pow256(2) && (r.code > 4 ==> |r.body| < Pow256(4)) by { Pow256Values(); }
    FromToLE(r.id, 2);
    FromToLE(r.code, 2);
    if r.code <= 4 {
      SlicesOf(ToLE(r.id, 2), ToLE(r.code, 2), [], r.body, rest);
      assert Encode(r) == ToLE(r.id, 2) + ToLE(r.code, 2) + [] + r.body;
    } else {
      FromToLE(|r.body|, 4);
      SlicesOf(ToLE(r.id, 2), ToLE(r.code, 2), ToLE(|r.body|, 4), r.body, rest);
      assert Encode(r) == ToLE(r.id, 2) + ToLE(r.code, 2) + ToLE(|r.body|, 4) + r.body;
    }
  }

  /** An entry on the wire, byte by byte: id, type, for data the length, and the body. */
  lemma EntryLayout(r: Raw)
    requires WellFormed(r)
    ensures
      var b := Encode(r);
      && U16(b, 0) == r.id && U16(b, 2) == r.code
      && if r.code <= 4 then b[4..] == r.body else U32(b, 4) == |r.body| && b[8..] == r.body
  {
    var b := Encode(r);
    ReadEncode(r, []);
    assert b + [] == b;
    U16IsLE(b, 0);
    U16IsLE(b, 2);
    if r.code > 4 {
      U32IsLE(b, 4);
    }
  }

  /** The number of each type, and for integers how many bytes follow. */
  lemma TypesOnWire(id: nat, t: Type, body: seq<byte>)
    requires WellFormed(Raw(id, Code(t), body))
    ensures
      var b := Encode(Raw(id, Code(t), body));
      match t
      case Uint8 => U16(b, 2) == 1 && |b| == 5
      case Uint16 => U16(b, 2) == 2 && |b| == 6
      case Uint32 => U16(b, 2) == 3 && |b| == 8
      case Uint64 => U16(b, 2) == 4 && |b| == 12
      case Data => U16(b, 2) == 5 && |b| == 8 + |body|
      case ConstData(_) => U16(b, 2) == 6 && |b| == 8 + |body|
  {
    EntryLayout(Raw(id, Code(t), body));
  }

  lemma SlicesOf(id: seq<byte>, code: seq<byte>, len: seq<byte>, body: seq<byte>, rest: seq<byte>)
    requires |id| == |code| == 2
    ensures
      var b, h := id + code + len + body + rest, 4 + |len|;
      b[0..2] == id && b[2..4] == code && b[4..h] == len && b[h..h + |body|] == body && b[h + |body|..] == rest
  {
  }

  lemma ReadIsEncode(b: seq<byte>)
    requires Read(b).Some?
    ensures WellFormed(Read(b).value) && b == Encode(Read(b).value) + b[Size(Read(b).value)..]
  {
    Pow256Values();
    ToFromLE(b[0..2]);
    ToFromLE(b[2..4]);
    var r := Read(b).value;
    if r.code > 4 {
      ToFromLE(b[4..8]);
      assert b[..Size(r)] == b[0..2] + b[2..4] + (b[4..8] + b[8..8 + |r.body|]);
    } else {
      assert b[..Size(r)] == b[0..2] + b[2..4] + b[4..4 + |r.body|];
    }
    assert b == b[..Size(r)] + b[Size(r)..];
  }

  // ---- matching entries against a schema ----

  predicate IsInt(t: Type) { Code(t) <= 4 }

  /** Two entries whose ids would be labels of the same generated switch. */
  predicate SameSwitch(s: Type, t: Type) { Code(s) == Code(t) || (!IsInt(s) && !IsInt(t)) }

  /** Ids are unambiguous: no generated switch has a label twice. */
  ghost predicate Unambiguous(sc: seq<Spec>) {
    && (forall i :: 0 <= i < |sc| ==> sc[i].id < 0x1_0000 && (sc[i].ty.ConstData? ==> sc[i].ty.size < 0x1_0000_0000))
    && (forall i, j :: 0 <= i < j < |sc| && SameSwitch(sc[i].ty, sc[j].ty) ==> sc[i].id != sc[j].id)
  }

  /** The switch of Parser_Init for an entry of this type code. */
  function Lookup(sc: seq<Spec>, code: nat, id: nat): (k: nat)
    ensures k <= |sc|
    ensures k < |sc| ==> sc[k].id == id && (if code <= 4 then Code(sc[k].ty) == code else !IsInt(sc[k].ty))
    ensures forall i :: 0 <= i < k ==> !(sc[i].id == id && (if code <= 4 then Code(sc[i].ty) == code else !IsInt(sc[i].ty)))
  {
    if sc == [] then 0
    else if sc[0].id == id && (if code <= 4 then Code(sc[0].ty) == code else !IsInt(sc[0].ty)) then 0
    else 1 + Lookup(sc[1..], code, id)
  }

  /** The schema entry Parser_Init counts this wire entry for, or none if it rejects it. */
  function MatchOf(sc: seq<Spec>, r: Raw): Option<nat> {
    var k := Lookup(sc, r.code, r.id);
    if k == |sc| then None
    else if r.code > 4 && Code(sc[k].ty) != r.code then None
    else if r.code > 4 && sc[k].ty.ConstData? && |r.body| != sc[k].ty.size then None
    else Some(k)
  }

  /** The test in the getter of entry `k`. */
  predicate Hits(sc: seq<Spec>, k: nat, r: Raw)
    requires k < |sc|
  {
    r.id == sc[k].id && r.code == Code(sc[k].ty)
  }

  /** Constant data has the size the schema gives it. */
  predicate SizeFits(t: Type, r: Raw) {
    t.ConstData? ==> |r.body| == t.size
  }

  /** The switches take an entry for schema entry `k` exactly when its getter would, and its size is right. */
  lemma MatchIsHit(sc: seq<Spec>, r: Raw, k: nat)
    requires Unambiguous(sc) && k < |sc|
    ensures MatchOf(sc, r) == Some(k) <==> Hits(sc, k, r) && SizeFits(sc[k].ty, r)
  {
    var m := Lookup(sc, r.code, r.id);
    if Hits(sc, k, r) && m != k {
      assert m < k && SameSwitch(sc[m].ty, sc[k].ty);
    }
  }

  lemma OnlyHit(sc: seq<Spec>, r: Raw, k: nat, m: nat)
    requires Unambiguous(sc) && k < |sc| && m < |sc| && Hits(sc, k, r) && Hits(sc, m, r)
    ensures k == m
  {
    assert SameSwitch(sc[k].ty, sc[m].ty) && SameSwitch(sc[m].ty, sc[k].ty);
  }

  // ---- acceptance ----

  /** The loop of Parser_Init: all entries of the buffer, if every one is well formed and expected. */
  function Scan(sc: seq<Spec>, b: seq<byte>): Option<seq<Raw>>
    decreases |b|
  {
    if b == [] then Some([])
    else
      var r := Read(b);
      if r.None? || MatchOf(sc, r.value).None? then None
      else
        assert Size(r.value) > 0;
        var rest := Scan(sc, b[Size(r.value)..]);
        if rest.None? then None else Some([r.value] + rest.value)
  }

  function Count(sc: seq<Spec>, k: nat, rs: seq<Raw>): nat
    requires k < |sc|
  {
    if rs == [] then 0 else Count(sc, k, rs[..|rs| - 1]) + if Hits(sc, k, rs[|rs| - 1]) then 1 else 0
  }

  predicate CardOk(c: Cardinality, n: nat) {
    match c
    case Repeated => true
    case RequiredRepeated => n >= 1
    case Optional => n <= 1
    case Required => n == 1
  }

  ghost predicate Message(sc: seq<Spec>, rs: seq<Raw>) {
    && (forall i :: 0 <= i < |rs| ==> WellFormed(rs[i]) && MatchOf(sc, rs[i]).Some?)
    && (forall k :: 0 <= k < |sc| ==> CardOk(sc[k].card, Count(sc, k, rs)))
  }

  lemma {:induction false} ScanFlat(sc: seq<Spec>, rs: seq<Raw>)
    requires forall i :: 0 <= i < |rs| ==> WellFormed(rs[i]) && MatchOf(sc, rs[i]).Some?
    ensures Scan(sc, Flat(rs)) == Some(rs)
  {
    if rs != [] {
      ReadEncode(rs[0], Flat(rs[1..]));
      ScanFlat(sc, rs[1..]);
      assert [rs[0]] + rs[1..] == rs;
    }
  }

  lemma {:induction false} ScanIsFlat(sc: seq<Spec>, b: seq<byte>)
    requires Scan(sc, b).Some?
    ensures
      var rs := Scan(sc, b).value;
      b == Flat(rs) && forall i :: 0 <= i < |rs| ==> WellFormed(rs[i]) && MatchOf(sc, rs[i]).Some?
    decreases |b|
  {
    if b != [] {
      ReadIsEncode(b);
      ScanIsFlat(sc, b[Size(Read(b).value)..]);
    }
  }

  /** Parser_Init's verdict: the entries scan, and their counts meet the cardinalities. */
  ghost predicate Accepts(sc: seq<Spec>, b: seq<byte>) {
    Scan(sc, b).Some? && forall k :: 0 <= k < |sc| ==> CardOk(sc[k].card, Count(sc, k, Scan(sc, b).value))
  }

  /** A parser accepts exactly the encodings of the messages of its schema. */
  lemma AcceptsExactlyMessages(sc: seq<Spec>, b: seq<byte>)
    ensures Accepts(sc, b) <==> exists rs :: Message(sc, rs) && b == Flat(rs)
  {
    if Accepts(sc, b) {
      ScanIsFlat(sc, b);
      assert Message(sc, Scan(sc, b).value);
    }
    if exists rs :: Message(sc, rs) && b == Flat(rs) {
      var rs :| Message(sc, rs) && b == Flat(rs);
      ScanFlat(sc, rs);
    }
  }

  // ---- values ----

  /** The bodies of the entries for schema entry `k`, in order. */
  function Bodies(sc: seq<Spec>, k: nat, rs: seq<Raw>): seq<seq<byte>>
    requires k < |sc|
  {
    if rs == [] then [] else (if Hits(sc, k, rs[0]) then [rs[0].body] else []) + Bodies(sc, k, rs[1..])
  }

  /** One Add call: a value for schema entry `k`. */
  datatype Item = Item(k: nat, body: seq<byte>)

  ghost predicate ItemOk(sc: seq<Spec>, it: Item) {
    && it.k < |sc|
    && match sc[it.k].ty
       case Data => |it.body| < 0x1_0000_0000
       case ConstData(n) => |it.body| == n
       case t => |it.body| == Width(Code(t))
  }

  ghost predicate ItemsOk(sc: seq<Spec>, its: seq<Item>) {
    forall i :: 0 <= i < |its| ==> ItemOk(sc, its[i])
  }

  function RawOf(sc: seq<Spec>, it: Item): Raw
    requires it.k < |sc|
  {
    Raw(sc[it.k].id, Code(sc[it.k].ty), it.body)
  }

  function RawsOf(sc: seq<Spec>, its: seq<Item>): (rs: seq<Raw>)
    requires ItemsOk(sc, its)
    ensures |rs| == |its| && forall i :: 0 <= i < |its| ==> ItemOk(sc, its[i]) && rs[i] == RawOf(sc, its[i])
  {
    if its == [] then [] else assert ItemOk(sc, its[0]); [RawOf(sc, its[0])] + RawsOf(sc, its[1..])
  }

  /** The values added for entry `k`, in order. */
  function Added(k: nat, its: seq<Item>): seq<seq<byte>> {
    if its == [] then [] else (if its[0].k == k then [its[0].body] else []) + Added(k, its[1..])
  }

  lemma ItemMatches(sc: seq<Spec>, it: Item, k: nat)
    requires Unambiguous(sc) && ItemOk(sc, it) && k < |sc|
    ensures WellFormed(RawOf(sc, it)) && MatchOf(sc, RawOf(sc, it)) == Some(it.k)
    ensures Hits(sc, k, RawOf(sc, it)) <==> it.k == k
  {
    hide MatchOf, Unambiguous;
    var r := RawOf(sc, it);
    MatchIsHit(sc, r, it.k);
    if Hits(sc, k, r) {
      OnlyHit(sc, r, k, it.k);
    }
    assert sc[it.k].id < 0x1_0000 && (sc[it.k].ty.ConstData? ==> sc[it.k].ty.size < 0x1_0000_0000) by {
      SpecOk(sc, it.k);
    }
  }

  lemma SpecOk(sc: seq<Spec>, k: nat)
    requires Unambiguous(sc) && k < |sc|
    ensures sc[k].id < 0x1_0000 && (sc[k].ty.ConstData? ==> sc[k].ty.size < 0x1_0000_0000)
  {
  }

  lemma {:induction false} AddedBodies(sc: seq<Spec>, its: seq<Item>, k: nat)
    requires Unambiguous(sc) && k < |sc| && ItemsOk(sc, its)
    ensures Bodies(sc, k, RawsOf(sc, its)) == Added(k, its)
  {
    if its != [] {
      ItemMatches(sc, its[0], k);
      AddedBodies(sc, its[1..], k);
      assert RawsOf(sc, its)[1..] == RawsOf(sc, its[1..]);
    }
  }

  lemma {:induction false} CountIsBodies(sc: seq<Spec>, k: nat, rs: seq<Raw>)
    requires k < |sc|
    ensures Count(sc, k, rs) == |Bodies(sc, k, rs)|
  {
    if rs != [] {
      var n := |rs| - 1;
      CountIsBodies(sc, k, rs[..n]);
      BodiesAppend(sc, k, rs[..n], [rs[n]]);
      assert rs == rs[..n] + [rs[n]] && [rs[n]][1..] == [];
    }
  }

  lemma {:induction false} BodiesAppend(sc: seq<Spec>, k: nat, a: seq<Raw>, b: seq<Raw>)
    requires k < |sc|
    ensures Bodies(sc, k, a + b) == Bodies(sc, k, a) + Bodies(sc, k, b)
  {
    if a == [] {
      assert a + b == b;
    } else {
      BodiesAppend(sc, k, a[1..], b);
      assert (a + b)[1..] == a[1..] + b;
      Assoc(if Hits(sc, k, a[0]) then [a[0].body] else [], Bodies(sc, k, a[1..]), Bodies(sc, k, b));
    }
  }

  /**
   * Round trip: a message written by Add calls that meet the cardinalities is
   * accepted, and holds for each entry exactly the values added for it.
   */
  lemma RoundTrip(sc: seq<Spec>, its: seq<Item>)
    requires Unambiguous(sc) && ItemsOk(sc, its)
    requires forall k :: 0 <= k < |sc| ==> CardOk(sc[k].card, |Added(k, its)|)
    ensures
      var b := Flat(RawsOf(sc, its));
      && Accepts(sc, b) && Scan(sc, b) == Some(RawsOf(sc, its))
      && forall k :: 0 <= k < |sc| ==> Bodies(sc, k, Scan(sc, b).value) == Added(k, its)
  {
    var rs := RawsOf(sc, its);
    forall i | 0 <= i < |rs| ensures WellFormed(rs[i]) && MatchOf(sc, rs[i]).Some? {
      ItemMatches(sc, its[i], its[i].k);
    }
    ScanFlat(sc, rs);
    forall k | 0 <= k < |sc| ensures Bodies(sc, k, rs) == Added(k, its) && Count(sc, k, rs) == |Added(k, its)| {
      AddedBodies(sc, its, k);
      CountIsBodies(sc, k, rs);
    }
  }

  // ---- integers and bytes ----

  /** What an Add call is given and a getter returns. */
  datatype Value = Number(n: nat) | Octets(b: seq<byte>)
  datatype Input = Input(k: nat, v: Value)

  /** The range of the C type, and the length assertions of the Add functions. */
  ghost predicate ValueFits(t: Type, v: Value) {
    match t
    case Data => v.Octets? && |v.b| < 0x1_0000_0000
    case ConstData(n) => v.Octets? && |v.b| == n
    case _ => v.Number? && v.n < Pow256(Width(Code(t)))
  }

  /** htol8 to htol64 */
  function BodyOf(t: Type, v: Value): seq<byte> {
    if v.Octets? then v.b else ToLE(v.n, Width(Code(t)))
  }

  /** ltoh8 to ltoh64 */
  function ValueOf(t: Type, body: seq<byte>): Value {
    if IsInt(t) then Number(FromLE(body)) else Octets(body)
  }

  function Decoded(t: Type, bodies: seq<seq<byte>>): (vs: seq<Value>)
    ensures |vs| == |bodies|
  {
    if bodies == [] then [] else [ValueOf(t, bodies[0])] + Decoded(t, bodies[1..])
  }

  ghost predicate InputsFit(sc: seq<Spec>, ins: seq<Input>) {
    forall i :: 0 <= i < |ins| ==> ins[i].k < |sc| && ValueFits(sc[ins[i].k].ty, ins[i].v)
  }

  /** The values given for entry `k`, in order. */
  function Given(k: nat, ins: seq<Input>): seq<Value> {
    if ins == [] then [] else (if ins[0].k == k then [ins[0].v] else []) + Given(k, ins[1..])
  }

  /** The Add calls with their values as bytes. */
  function ItemsOf(sc: seq<Spec>, ins: seq<Input>): (its: seq<Item>)
    requires forall i :: 0 <= i < |ins| ==> ins[i].k < |sc|
    ensures |its| == |ins| && forall i :: 0 <= i < |ins| ==> its[i] == Item(ins[i].k, BodyOf(sc[ins[i].k].ty, ins[i].v))
  {
    if ins == [] then [] else [Item(ins[0].k, BodyOf(sc[ins[0].k].ty, ins[0].v))] + ItemsOf(sc, ins[1..])
  }

  /** A value that fits comes back, and makes a right item. */
  lemma ValueRoundTrip(sc: seq<Spec>, k: nat, v: Value)
    requires k < |sc| && ValueFits(sc[k].ty, v)
    ensures ValueOf(sc[k].ty, BodyOf(sc[k].ty, v)) == v && ItemOk(sc, Item(k, BodyOf(sc[k].ty, v)))
  {
    if IsInt(sc[k].ty) {
      FromToLE(v.n, Width(Code(sc[k].ty)));
    }
  }

  /** The only bytes that are read as the value are those written for it. */
  lemma BodyRoundTrip(sc: seq<Spec>, it: Item)
    requires ItemOk(sc, it)
    ensures
      var t := sc[it.k].ty;
      ValueFits(t, ValueOf(t, it.body)) && BodyOf(t, ValueOf(t, it.body)) == it.body
  {
    ToFromLE(it.body);
  }

  lemma {:induction false} GivenDecoded(sc: seq<Spec>, ins: seq<Input>, k: nat)
    requires InputsFit(sc, ins) && k < |sc|
    ensures Decoded(sc[k].ty, Added(k, ItemsOf(sc, ins))) == Given(k, ins)
  {
    hide ValueFits, ValueOf, BodyOf;
    if ins != [] {
      GivenDecoded(sc, ins[1..], k);
      var its := ItemsOf(sc, ins);
      assert its[1..] == ItemsOf(sc, ins[1..]);
      if ins[0].k == k {
        ValueRoundTrip(sc, k, ins[0].v);
        assert Added(k, its) == [its[0].body] + Added(k, its[1..]);
        assert Added(k, its)[1..] == Added(k, its[1..]);
      } else {
        assert Added(k, its) == [] + Added(k, its[1..]) == Added(k, its[1..]);
      }
    }
  }

  /** The Add calls that meet the schema, by the bytes and by the values. */
  ghost predicate Writable(sc: seq<Spec>, its: seq<Item>) {
    ItemsOk(sc, its) && forall k :: 0 <= k < |sc| ==> CardOk(sc[k].card, |Added(k, its)|)
  }

  ghost predicate Sendable(sc: seq<Spec>, ins: seq<Input>) {
    InputsFit(sc, ins) && forall k :: 0 <= k < |sc| ==> CardOk(sc[k].card, |Given(k, ins)|)
  }

  lemma SendableWritable(sc: seq<Spec>, ins: seq<Input>)
    requires Sendable(sc, ins)
    ensures Writable(sc, ItemsOf(sc, ins))
  {
    hide ValueFits, BodyOf, ItemOk, Added, Given, Decoded, CardOk;
    var its := ItemsOf(sc, ins);
    forall i | 0 <= i < |its| ensures ItemOk(sc, its[i]) { ValueRoundTrip(sc, ins[i].k, ins[i].v); }
    forall k | 0 <= k < |sc| ensures |Added(k, its)| == |Given(k, ins)| { GivenDecoded(sc, ins, k); }
  }

  // ---- whatever is accepted could have been written ----

  function ItemOf(sc: seq<Spec>, r: Raw): Item
    requires MatchOf(sc, r).Some?
  {
    Item(MatchOf(sc, r).value, r.body)
  }

  lemma ItemOfOk(sc: seq<Spec>, r: Raw)
    requires Unambiguous(sc) && WellFormed(r) && MatchOf(sc, r).Some?
    ensures ItemOk(sc, ItemOf(sc, r)) && RawOf(sc, ItemOf(sc, r)) == r
  {
    MatchIsHit(sc, r, MatchOf(sc, r).value);
  }

  lemma {:induction false} ItemsOfRaws(sc: seq<Spec>, rs: seq<Raw>) returns (its: seq<Item>)
    requires Unambiguous(sc) && forall i :: 0 <= i < |rs| ==> WellFormed(rs[i]) && MatchOf(sc, rs[i]).Some?
    ensures ItemsOk(sc, its) && RawsOf(sc, its) == rs
  {
    hide MatchOf, WellFormed, Unambiguous;
    if rs == [] {
      its := [];
    } else {
      var rest := ItemsOfRaws(sc, rs[1..]);
      ItemOfOk(sc, rs[0]);
      its := [ItemOf(sc, rs[0])] + rest;
      assert its[1..] == rest && rs == [rs[0]] + rs[1..];
    }
  }

  /** A parser accepts exactly the bytes that some sequence of Add calls writes. */
  lemma AcceptsExactlyWritten(sc: seq<Spec>, b: seq<byte>)
    requires Unambiguous(sc)
    ensures Accepts(sc, b) <==> exists its :: Writable(sc, its) && b == Flat(RawsOf(sc, its))
  {
    if Accepts(sc, b) {
      var rs := Scan(sc, b).value;
      ScanIsFlat(sc, b);
      var its := ItemsOfRaws(sc, rs);
      forall k | 0 <= k < |sc| ensures CardOk(sc[k].card, |Added(k, its)|) {
        AddedBodies(sc, its, k);
        CountIsBodies(sc, k, rs);
      }
      assert Writable(sc, its);
    }
    if exists its :: Writable(sc, its) && b == Flat(RawsOf(sc, its)) {
      var its :| Writable(sc, its) && b == Flat(RawsOf(sc, its));
      RoundTrip(sc, its);
    }
  }
}
