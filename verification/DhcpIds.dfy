/**
 * How many discovers share a transaction id.  A generated id is used for at most
 * XID_REUSE_MAX of them; but the same id can be generated again, by chance or
 * because the generator fails and a constant stands in for it.  So the bound
 * holds for every run exactly if no id is generated twice.
 */
module DhcpIds {
  import opened Bytes
  import opened DhcpModel

  /** How many discovers carry the id `x`. */
  function Discovers(out: seq<Out>, x: nat): nat {
    if out == [] then 0
    else (if out[0].Discover? && out[0].xid == x then 1 else 0) + Discovers(out[1..], x)
  }

  lemma {:induction false} DiscoversAppend(a: seq<Out>, b: seq<Out>, x: nat)
    ensures Discovers(a + b, x) == Discovers(a, x) + Discovers(b, x)
    decreases |a|
  {
    if a == [] {
      assert a + b == b;
    } else {
      assert (a + b)[1..] == a[1..] + b;
      DiscoversAppend(a[1..], b, x);
    }
  }

  lemma DiscoversOne(out: seq<Out>, x: nat)
    requires out == [] || |out| == 1 || out[1..] == [Down]
    ensures Discovers(out, x) == if out != [] && out[0].Discover? && out[0].xid == x then 1 else 0
  {
    if |out| == 2 {
      assert Discovers(out[1..], x) == Discovers(out[1..][1..], x);
    }
  }

  /** The event makes start_process generate an id. */
  predicate Generates(c: Client, e: Event) {
    e.Expire? &&
    match e.t
    case Reset => c.mode == Resetting || c.reuse == XID_REUSE_MAX
    case Request => c.requestCount == MAX_REQUESTS && c.reuse == XID_REUSE_MAX
    case Lease => true
    case _ => false
  }

  /** The ids generated in a run, in order. */
  function Generated(c: Client, es: seq<Event>): seq<nat>
    decreases |es|
  {
    if es == [] then []
    else (if Generates(c, es[0]) then [es[0].random] else []) + Generated(Step(c, es[0]).client, es[1..])
  }

  /** How often `x` occurs. */
  function Times(ids: seq<nat>, x: nat): nat {
    if ids == [] then 0 else (if ids[0] == x then 1 else 0) + Times(ids[1..], x)
  }

  /** The reuse counter counts the discovers since the id was generated, and all of them carry it. */
  lemma StepDiscovers(c: Client, e: Event, x: nat)
    requires Inv(c) && Enabled(c, e)
    ensures
      var r := Step(c, e);
      if Generates(c, e)
      then r.client.xid == e.random && r.client.reuse == 1 && Discovers(r.out, x) == if x == e.random then 1 else 0
      else r.client.xid == c.xid && c.reuse <= r.client.reuse
           && Discovers(r.out, x) == if x == c.xid then r.client.reuse - c.reuse else 0
  {
    var r := Step(c, e);
    assert |r.out| == 2 ==> r.out[1..] == [Down];
    DiscoversOne(r.out, x);
  }

  /** At most XID_REUSE_MAX discovers carry `x` for each time it is generated. */
  lemma {:induction false} AtMostEightEach(c: Client, es: seq<Event>, x: nat)
    requires Inv(c) && Run(c, es)
    ensures Discovers(Trace(c, es), x) + (if c.xid == x then c.reuse else 0)
            <= XID_REUSE_MAX * Times([c.xid] + Generated(c, es), x)
    decreases |es|
  {
    hide Step, Inv, Enabled;
    TimesCons(c.xid, Generated(c, es), x);
    assert c.reuse <= XID_REUSE_MAX by { ReuseBound(c); }
    if es != [] {
      var r := Step(c, es[0]);
      StepKeepsInv(c, es[0]);
      StepDiscovers(c, es[0], x);
      AtMostEightEach(r.client, es[1..], x);
      DiscoversAppend(r.out, Trace(r.client, es[1..]), x);
      TimesCons(r.client.xid, Generated(r.client, es[1..]), x);
      assert Generates(c, es[0]) ==> Generated(c, es) == [r.client.xid] + Generated(r.client, es[1..]);
      assert !Generates(c, es[0]) ==> Generated(c, es) == Generated(r.client, es[1..]);
    }
  }

  lemma TimesCons(y: nat, ids: seq<nat>, x: nat)
    ensures Times([y] + ids, x) == (if y == x then 1 else 0) + Times(ids, x)
  {
    assert ([y] + ids)[1..] == ids;
  }

  lemma ReuseBound(c: Client)
    requires Inv(c)
    ensures c.reuse <= XID_REUSE_MAX
  {
  }

  /** Everything the client puts out from its start on, and every id generated. */
  function AllOut(now: nat, random: nat, es: seq<Event>): seq<Out> {
    Init(now, random).out + Trace(Init(now, random).client, es)
  }

  function AllGenerated(now: nat, random: nat, es: seq<Event>): seq<nat> {
    [random] + Generated(Init(now, random).client, es)
  }

  /** In every run of the client, at most XID_REUSE_MAX discovers carry `x` for each time it is generated. */
  lemma AtMostEightEver(now: nat, random: nat, es: seq<Event>, x: nat)
    requires Run(Init(now, random).client, es)
    ensures Discovers(AllOut(now, random, es), x) <= XID_REUSE_MAX * Times(AllGenerated(now, random, es), x)
  {
    var r := Init(now, random);
    AtMostEightEach(r.client, es, x);
    DiscoversAppend(r.out, Trace(r.client, es), x);
    DiscoversOne(r.out, x);
  }

  // ---- the bound is reached ----

  /** A client whose discovers are all sent and never answered. */
  ghost predicate Unanswered(c: Client) {
    Inv(c) && c.mode == SentDiscover && c.sending
  }

  /** The send completes, and then the reset timer goes off. */
  function Beat(c: Client, random: nat): seq<Event>
    requires Reset in c.timers
  {
    [SendDone(c.timers[Reset]), Expire(Reset, c.timers[Reset], random)]
  }

  /** The client after a beat. */
  function Beaten(c: Client, random: nat): Client
    requires Reset in c.timers
  {
    StartProcess(Stop(c, Reset), c.reuse == XID_REUSE_MAX, c.timers[Reset], random).client
  }

  lemma OneBeat(c: Client, random: nat, es: seq<Event>)
    requires Unanswered(c)
    ensures Reset in c.timers && Unanswered(Beaten(c, random))
    ensures
      var c' := Beaten(c, random);
      && c'.xid == (if c.reuse == XID_REUSE_MAX then random else c.xid)
      && c'.reuse == (if c.reuse == XID_REUSE_MAX then 1 else c.reuse + 1)
      && (Run(c', es) ==> Run(c, Beat(c, random) + es))
      && Trace(c, Beat(c, random) + es) == [Discover(c'.xid, true)] + Trace(c', es)
      && Generated(c, Beat(c, random) + es) ==
           (if c.reuse == XID_REUSE_MAX then [random] else []) + Generated(c', es)
  {
    var t := c.timers[Reset];
    var run := Beat(c, random) + es;
    var c1 := c.(sending := false);
    var c' := Beaten(c, random);
    assert run[0] == SendDone(t) && run[1..] == [Expire(Reset, t, random)] + es && run[1..][1..] == es;
    assert Step(c, run[0]) == Result(c1, []);
    assert Step(c1, run[1]) == Result(c', [Discover(c'.xid, true)]);
    assert [] + Trace(c1, run[1..]) == Trace(c1, run[1..]);
    assert [] + Generated(c1, run[1..]) == Generated(c1, run[1..]);
    assert c'.timers.Keys == {Reset};
  }

  /** Beats until every id of `ids` has been generated in its turn and used as often as can be. */
  function Beats(c: Client, ids: seq<nat>): seq<Event>
    requires Unanswered(c)
    decreases |ids|, XID_REUSE_MAX - c.reuse
  {
    if c.reuse == XID_REUSE_MAX then
      if ids == [] then []
      else OneBeat(c, ids[0], []); Beat(c, ids[0]) + Beats(Beaten(c, ids[0]), ids[1..])
    else OneBeat(c, 0, []); Beat(c, 0) + Beats(Beaten(c, 0), ids)
  }

  lemma {:induction false} BeatsReach(c: Client, ids: seq<nat>, x: nat)
    requires Unanswered(c)
    ensures Run(c, Beats(c, ids)) && Generated(c, Beats(c, ids)) == ids
    ensures Discovers(Trace(c, Beats(c, ids)), x) + (if c.xid == x then c.reuse else 0)
            == XID_REUSE_MAX * Times([c.xid] + ids, x)
    ensures forall o :: o in Trace(c, Beats(c, ids)) ==> o.Discover? && o.sent
    decreases |ids|, XID_REUSE_MAX - c.reuse
  {
    TimesCons(c.xid, ids, x);
    if c.reuse == XID_REUSE_MAX && ids == [] {
      assert Trace(c, []) == [] && Generated(c, []) == [];
    } else {
      var full := c.reuse == XID_REUSE_MAX;
      var y, rest := if full then ids[0] else 0, if full then ids[1..] else ids;
      OneBeat(c, y, []);
      var c' := Beaten(c, y);
      OneBeat(c, y, Beats(c', rest));
      BeatsReach(c', rest, x);
      DiscoversAppend([Discover(c'.xid, true)], Trace(c', Beats(c', rest)), x);
      DiscoversOne([Discover(c'.xid, true)], x);
      TimesCons(c'.xid, rest, x);
      if full {
        TimesCons(ids[0], ids[1..], x);
        assert ids == [ids[0]] + ids[1..];
      } else {
        assert [] + Generated(c', Beats(c', rest)) == Generated(c', Beats(c', rest));
      }
    }
  }

  /** For every sequence of ids a generator may give, some run sends XID_REUSE_MAX discovers for each of them. */
  lemma EightReached(now: nat, ids: seq<nat>, x: nat) returns (es: seq<Event>)
    requires ids != []
    ensures Run(Init(now, ids[0]).client, es) && AllGenerated(now, ids[0], es) == ids
    ensures Discovers(AllOut(now, ids[0], es), x) == XID_REUSE_MAX * Times(ids, x)
    ensures forall o :: o in AllOut(now, ids[0], es) ==> o.Discover? && o.sent
  {
    var r := Init(now, ids[0]);
    assert r.client.timers.Keys == {Reset};
    es := Beats(r.client, ids[1..]);
    BeatsReach(r.client, ids[1..], x);
    DiscoversAppend(r.out, Trace(r.client, es), x);
    DiscoversOne(r.out, x);
    assert ids == [ids[0]] + ids[1..];
  }

  // ---- when at most eight share an id ----

  predicate Distinct(ids: seq<nat>) {
    forall i, j :: 0 <= i < j < |ids| ==> ids[i] != ids[j]
  }

  lemma {:induction false} TimesIn(ids: seq<nat>, x: nat)
    ensures Times(ids, x) > 0 <==> x in ids
    ensures Distinct(ids) ==> Times(ids, x) <= 1
  {
    if ids != [] {
      TimesIn(ids[1..], x);
      assert x in ids <==> x == ids[0] || x in ids[1..];
      assert Distinct(ids) ==> Distinct(ids[1..]) && ids[0] !in ids[1..];
    }
  }

  lemma {:induction false} TimesTwice(ids: seq<nat>, i: nat, j: nat)
    requires i < j < |ids| && ids[i] == ids[j]
    ensures Times(ids, ids[i]) >= 2
  {
    if i == 0 {
      assert ids[j] == ids[1..][j - 1];
      TimesIn(ids[1..], ids[0]);
    } else {
      assert ids[i] == ids[1..][i - 1] && ids[j] == ids[1..][j - 1];
      TimesTwice(ids[1..], i - 1, j - 1);
    }
  }

  lemma {:induction false} PrefixDistinct(ids: seq<nat>, all: seq<nat>)
    requires ids <= all && Distinct(all)
    ensures Distinct(ids)
  {
  }

  /** No id is carried by more than XID_REUSE_MAX discovers in this run. */
  ghost predicate EightSuffice(now: nat, random: nat, es: seq<Event>) {
    forall x :: Discovers(AllOut(now, random, es), x) <= XID_REUSE_MAX
  }

  /**
   * With a generator that gives the ids `ids` in turn, no run has more than
   * XID_REUSE_MAX discovers with one id, if and only if no id is given twice.
   */
  lemma EightExactly(now: nat, ids: seq<nat>)
    requires ids != []
    ensures Distinct(ids) <==>
            forall es: seq<Event> {:trigger EightSuffice(now, ids[0], es)} ::
              Run(Init(now, ids[0]).client, es) && AllGenerated(now, ids[0], es) <= ids ==> EightSuffice(now, ids[0], es)
  {
    if Distinct(ids) {
      forall es: seq<Event> | Run(Init(now, ids[0]).client, es) && AllGenerated(now, ids[0], es) <= ids
        ensures EightSuffice(now, ids[0], es)
      {
        forall x ensures Discovers(AllOut(now, ids[0], es), x) <= XID_REUSE_MAX {
          AtMostEightEver(now, ids[0], es, x);
          PrefixDistinct(AllGenerated(now, ids[0], es), ids);
          TimesIn(AllGenerated(now, ids[0], es), x);
        }
      }
    } else {
      var i, j :| 0 <= i < j < |ids| && ids[i] == ids[j];
      var es := EightReached(now, ids, ids[i]);
      TimesTwice(ids, i, j);
      assert !EightSuffice(now, ids[0], es);
    }
  }

  /** The id that stands in when the generator fails: any number of discovers can carry it. */
  lemma GeneratorFails(now: nat, n: nat) returns (es: seq<Event>)
    ensures Run(Init(now, 3416960072).client, es)
    ensures Discovers(AllOut(now, 3416960072, es), 3416960072) == XID_REUSE_MAX * (n + 1)
  {
    var ids := seq(n + 1, _ => 3416960072 as nat);
    TimesAll(ids, 3416960072);
    es := EightReached(now, ids, 3416960072);
  }

  lemma {:induction false} TimesAll(ids: seq<nat>, x: nat)
    requires forall i :: 0 <= i < |ids| ==> ids[i] == x
    ensures Times(ids, x) == |ids|
  {
    if ids != [] {
      TimesAll(ids[1..], x);
    }
  }
}
