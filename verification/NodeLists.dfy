/**
 * Doubly linked lists without a head: each node knows the node before it and
 * the node behind it, and several lists live side by side.  What the links
 * say is kept in agreement with the sequences they stand for.
 */
module NodeLists {
  import opened Bytes
  import opened Lists

  /** All members of the list `l` now have `l` as their list. */
  function Relink<T(==)>(list: map<T, seq<T>>, l: seq<T>): map<T, seq<T>> {
    list + map x | x in l :: l
  }

  /** What a new node changes for the neighbours. */
  lemma AfterInsert<T>(l: seq<T>, ref: T, e: T, x: T)
    requires NoDup(l) && ref in l && e !in l && x in InsertAfter(l, ref, e)
    ensures x != e ==> x in l
    ensures
      var l' := InsertAfter(l, ref, e);
      && Succ(l', x) == (if x == ref then Some(e) else if x == e then Succ(l, ref) else Succ(l, x))
      && Pred(l', x) == (if x == e then Some(ref) else if Succ(l, ref) == Some(x) then Some(e) else Pred(l, x))
  {
    hide InsertAfter, Succ, Pred, Position;
    var a, b := SplitAt(l, ref);
    InsertIs(a, ref, b, e);
    var l' := InsertAfter(l, ref, e);
    var j :| 0 <= j < |l'| && l'[j] == x;
    Neighbours(l', j);
    Neighbours(l, |a|);
    if j != |a| + 1 {
      var k := if j <= |a| then j else j - 1;
      InsertAt(a, ref, b, e, j);
      Neighbours(l, k);
      InsertedNear(l, a, ref, b, e, l', j, k);
    } else {
      assert x == e && l'[j - 1] == ref;
      assert b != [] ==> l'[j + 1] == b[0] == l[|a| + 1];
    }
  }

  lemma InsertAt<T>(a: seq<T>, ref: T, b: seq<T>, e: T, j: nat)
    requires j < |a| + 2 + |b| && j != |a| + 1
    ensures (a + [ref, e] + b)[j] == (a + [ref] + b)[if j <= |a| then j else j - 1]
  {
  }

  lemma InsertedNear<T>(l: seq<T>, a: seq<T>, ref: T, b: seq<T>, e: T, l': seq<T>, j: nat, k: nat)
    requires l == a + [ref] + b && l' == a + [ref, e] + b && NoDup(l) && NoDup(l')
    requires j < |l'| && j != |a| + 1 && k == if j <= |a| then j else j - 1
    ensures j + 1 < |l'| ==> l'[j + 1] == if j == |a| then e else l[k + 1]
    ensures j + 1 == |l'| ==> k + 1 == |l|
    ensures j > 0 ==> l'[j - 1] == if j == |a| + 2 then e else l[k - 1]
    ensures j > 0 ==> (l'[j] == l[if |a| + 1 < |l| then |a| + 1 else 0] && |a| + 1 < |l| <==> j == |a| + 2)
    ensures j != |a| ==> l'[j] != ref
    ensures l'[j] != e
  {
    assert l'[|a|] == ref && l'[|a| + 1] == e;
    assert |a| + 1 < |l| ==> l[|a| + 1] == b[0] == l'[|a| + 2];
  }

  /** What a removed node changes for the neighbours. */
  lemma AfterRemove<T>(l: seq<T>, e: T, x: T)
    requires NoDup(l) && e in l && x in Remove(l, e)
    ensures x in l && x != e
    ensures
      var l' := Remove(l, e);
      && Succ(l', x) == (if Succ(l, x) == Some(e) then Succ(l, e) else Succ(l, x))
      && Pred(l', x) == (if Pred(l, x) == Some(e) then Pred(l, e) else Pred(l, x))
  {
    hide Remove, Succ, Pred, Position;
    var a, b := SplitAt(l, e);
    RemoveIs(a, e, b);
    var l' := Remove(l, e);
    var j :| 0 <= j < |l'| && l'[j] == x;
    var k := if j < |a| then j else j + 1;
    assert l[k] == x && l[|a|] == e;
    Neighbours(l', j);
    Neighbours(l, |a|);
    Neighbours(l, k);
    assert j + 1 < |l'| ==> l'[j + 1] == l[if j + 1 < |a| then j + 1 else j + 2];
    assert j > 0 ==> l'[j - 1] == l[if j - 1 < |a| then j - 1 else j];
  }

  lemma Mutual<T>(l: seq<T>, e: T, x: T)
    requires NoDup(l) && e in l && x in l
    ensures Succ(l, x) == Some(e) <==> Pred(l, e) == Some(x)
  {
    hide Succ, Pred;
    Neighbours(l, Position(l, e));
    Neighbours(l, Position(l, x));
  }

  lemma NeighboursIn<T>(l: seq<T>, e: T)
    requires e in l
    ensures Succ(l, e).Some? ==> Succ(l, e).value in l
    ensures Pred(l, e).Some? ==> Pred(l, e).value in l
  {
  }

  /** The links of node `e` are those of its place in its list. */
  ghost predicate NodeOk<T>(next: map<T, Option<T>>, prev: map<T, Option<T>>, list: map<T, seq<T>>, e: T)
    requires e in list
  {
    var l := list[e];
    && e in l && NoDup(l) && (forall x {:trigger x in l} :: x in l ==> x in list && list[x] == l)
    && e in next && e in prev && next[e] == Succ(l, e) && prev[e] == Pred(l, e)
  }

  ghost predicate AllOk<T>(next: map<T, Option<T>>, prev: map<T, Option<T>>, list: map<T, seq<T>>) {
    forall e {:trigger NodeOk(next, prev, list, e)} :: e in list ==> NodeOk(next, prev, list, e)
  }

  lemma InOwnList<T>(next: map<T, Option<T>>, prev: map<T, Option<T>>, list: map<T, seq<T>>, e: T)
    requires AllOk(next, prev, list) && e in list
    ensures e in list[e]
  {
    assert NodeOk(next, prev, list, e);
  }

  lemma InsertOk<T>(next: map<T, Option<T>>, prev: map<T, Option<T>>, list: map<T, seq<T>>, e: T, ref: T)
    requires AllOk(next, prev, list) && e !in list && ref in list
    ensures ref in next
    ensures
      var prev1 := prev[e := Some(ref)];
      AllOk(next[e := next[ref]][ref := Some(e)],
            if next[ref].Some? then prev1[next[ref].value := Some(e)] else prev1,
            Relink(list, InsertAfter(list[ref], ref, e)))
  {
    hide InsertAfter, Succ, Pred, NoDup;
    assert NodeOk(next, prev, list, ref);
    var l := list[ref];
    NeighboursIn(l, ref);
    assert e !in l;
    var next', prev1 := next[e := next[ref]][ref := Some(e)], prev[e := Some(ref)];
    var prev' := if next[ref].Some? then prev1[next[ref].value := Some(e)] else prev1;
    var l' := InsertAfter(l, ref, e);
    var list' := Relink(list, l');
    forall x | x in list' ensures NodeOk(next', prev', list', x) {
      assert x != e ==> NodeOk(next, prev, list, x);
      if x in l' {
        AfterInsert(l, ref, e, x);
      }
    }
  }

  lemma RemoveOk<T>(next: map<T, Option<T>>, prev: map<T, Option<T>>, list: map<T, seq<T>>, e: T)
    requires AllOk(next, prev, list) && e in list
    ensures e in next && e in prev
    ensures
      AllOk(if prev[e].Some? then next[prev[e].value := next[e]] else next,
            if next[e].Some? then prev[next[e].value := prev[e]] else prev,
            Relink(list, Remove(list[e], e)) - {e})
  {
    hide Remove, Succ, Pred, NoDup;
    assert NodeOk(next, prev, list, e);
    var l := list[e];
    NeighboursIn(l, e);
    var next' := if prev[e].Some? then next[prev[e].value := next[e]] else next;
    var prev' := if next[e].Some? then prev[next[e].value := prev[e]] else prev;
    var l' := Remove(l, e);
    var list' := Relink(list, l') - {e};
    forall x | x in list' ensures NodeOk(next', prev', list', x) {
      assert NodeOk(next, prev, list, x);
      if x in l' {
        AfterRemove(l, e, x);
        Mutual(l, e, x);
        Mutual(l, x, e);
      }
    }
  }

  /** What the iterator that stands at `at` has still to visit. */
  ghost function Walk<T>(list: map<T, seq<T>>, at: Option<T>): seq<T> {
    if at.Some? && at.value in list then Onward(list[at.value], at) else []
  }

  lemma WalkInsert<T>(next: map<T, Option<T>>, prev: map<T, Option<T>>, list: map<T, seq<T>>, at: Option<T>, e: T, ref: T)
    requires AllOk(next, prev, list) && e !in list && ref in list && (at.Some? ==> at.value in list)
    ensures Walk(Relink(list, InsertAfter(list[ref], ref, e)), at) == InsertAfter(Walk(list, at), ref, e)
  {
    hide InsertAfter, Onward, NoDup, Succ, Pred;
    if at.Some? {
      assert NodeOk(next, prev, list, at.value) && NodeOk(next, prev, list, ref);
      OnwardInsert(list[at.value], at, ref, e);
    }
  }

  lemma WalkRemove<T>(next: map<T, Option<T>>, prev: map<T, Option<T>>, list: map<T, seq<T>>, at: Option<T>, e: T)
    requires AllOk(next, prev, list) && e in list && (at.Some? ==> at.value in list)
    ensures e in next
    ensures
      var at', list' := if at == Some(e) then next[e] else at, Relink(list, Remove(list[e], e)) - {e};
      (at'.Some? ==> at'.value in list') && Walk(list', at') == Remove(Walk(list, at), e)
  {
    hide Remove, Onward, NoDup, Succ, Pred;
    assert NodeOk(next, prev, list, e);
    if at.Some? {
      assert NodeOk(next, prev, list, at.value);
      if e in list[at.value] {
        OnwardRemove(list[e], at, e);
        NextOther(list[e], e);
        OnwardNone(Remove(list[e], e));
      }
    }
  }

  lemma OnwardNone<T>(l: seq<T>)
    ensures Onward(l, None) == []
  {
  }

  lemma NextOther<T>(l: seq<T>, e: T)
    requires NoDup(l) && e in l
    ensures Succ(l, e).Some? ==> Succ(l, e).value in Remove(l, e)
  {
    hide Remove;
    var k := Position(l, e);
    assert k + 1 < |l| ==> l[k + 1] in l && l[k + 1] != e;
  }

  /** The iterator stands at the first node it still visits. */
  lemma WalkHead<T>(next: map<T, Option<T>>, prev: map<T, Option<T>>, list: map<T, seq<T>>, at: Option<T>)
    requires AllOk(next, prev, list) && (at.Some? ==> at.value in list)
    ensures if at.None? then Walk(list, at) == [] else Walk(list, at) != [] && Walk(list, at)[0] == at.value
  {
    if at.Some? {
      assert NodeOk(next, prev, list, at.value);
      OnwardStep(list[at.value], at.value);
    }
  }

  class Nodes<T(==)> {
    var next: map<T, Option<T>>
    var prev: map<T, Option<T>>
    /** Where the iterator stands. */
    var at: Option<T>
    /** Whether its node knows of the iterator. */
    var linked: bool
    /** The iterator stands at a node that has left its list. */
    ghost var lost: bool
    /** The list each node is in. */
    ghost var list: map<T, seq<T>>

    ghost predicate Valid()
      reads this
    {
      AllOk(next, prev, list) && (!lost && at.Some? ==> at.value in list)
    }

    /** What the iterator has still to visit. */
    ghost function Rest(): seq<T>
      reads this
    {
      if lost then [] else Walk(list, at)
    }

    constructor ()
      ensures Valid() && list == map[] && Rest() == [] && !lost
    {
      next, prev, at, linked := map[], map[], None, false;
      list, lost := map[], false;
    }

    /** LinkedList3Node_InitLonely */
    method InitLonely(e: T)
      requires Valid() && e !in list
      modifies this`next, this`prev, this`list
      ensures Valid() && list == old(list)[e := [e]] && Rest() == old(Rest())
    {
      next, prev := next[e := None], prev[e := None];
      list := list[e := [e]];
      forall x | x in list ensures NodeOk(next, prev, list, x) {
        assert x != e ==> NodeOk(old(next), old(prev), old(list), x);
      }
    }

    /** LinkedList3Node_InitAfter */
    method InitAfter(e: T, ref: T)
      requires Valid() && e !in list && ref in list
      modifies this`next, this`prev, this`list
      ensures Valid() && list == Relink(old(list), InsertAfter(old(list)[ref], ref, e))
      ensures Rest() == InsertAfter(old(Rest()), ref, e)
    {
      hide AllOk, InsertAfter, Walk;
      InsertOk(next, prev, list, e, ref);
      if !lost {
        WalkInsert(next, prev, list, at, e, ref);
      }
      prev := prev[e := Some(ref)];
      next := next[e := next[ref]];
      next := next[ref := Some(e)];
      if next[e].Some? {
        prev := prev[next[e].value := Some(e)];
      }
      list := Relink(list, InsertAfter(list[ref], ref, e));
    }

    /** LinkedList3Node_Free: a linked iterator that stands at the node goes on to the next one */
    method Free(e: T)
      requires Valid() && e in list
      modifies this`next, this`prev, this`at, this`list, this`lost
      ensures Valid() && list == Relink(old(list), Remove(old(list)[e], e)) - {e}
      ensures lost <==> old(lost) || (!linked && old(Rest()) != [] && old(Rest())[0] == e)
      ensures !lost ==> Rest() == Remove(old(Rest()), e)
    {
      hide AllOk, Remove, Relink, Walk;
      RemoveOk(next, prev, list, e);
      if !lost {
        WalkRemove(next, prev, list, at, e);
        WalkHead(next, prev, list, at);
      }
      var p, n := prev[e], next[e];
      if at == Some(e) {
        if linked {
          at := n;
        } else {
          lost := true;
        }
      }
      if p.Some? {
        next := next[p.value := n];
      }
      if n.Some? {
        prev := prev[n.value := p];
      }
      list := Relink(list, Remove(list[e], e)) - {e};
    }

    /** LinkedList3Node_IsLonely */
    method IsLonely(e: T) returns (lonely: bool)
      requires Valid() && e in list
      ensures lonely <==> list[e] == [e]
    {
      assert NodeOk(next, prev, list, e);
      lonely := prev[e].None? && next[e].None?;
    }

    /** LinkedList3Node_NextOrPrev */
    method Neighbour(e: T) returns (x: T)
      requires Valid() && e in list && |list[e]| > 1
      ensures e in list[e] && x == NextOrPrev(list[e], e)
    {
      assert NodeOk(next, prev, list, e);
      x := if next[e].Some? then next[e].value else prev[e].value;
    }

    /** LinkedList3Node_First */
    method FirstOf(e: T) returns (x: T)
      requires Valid() && e in list
      ensures list[e] != [] && x == list[e][0]
    {
      ghost var l := list[e];
      assert NodeOk(next, prev, list, e);
      x := e;
      while prev[x].Some?
        invariant x in l && x in list && list[x] == l && NodeOk(next, prev, list, x)
        decreases Position(l, x)
      {
        Neighbours(l, Position(l, x));
        NeighboursIn(l, x);
        x := prev[x].value;
        assert NodeOk(next, prev, list, x);
        Neighbours(l, Position(l, x));
      }
    }

    /** LinkedList3Iterator_Init, forwards from the first node of a list */
    method Start(e: T)
      requires Valid() && e in list && list[e] != [] && list[e][0] == e
      modifies this`at, this`linked, this`lost
      ensures Valid() && Rest() == list[e] && linked && !lost
    {
      at, linked, lost := Some(e), true, false;
    }

    /** LinkedList3Iterator_Free */
    method Unlink()
      modifies this`linked
      ensures !linked
    {
      linked := false;
    }

    /** LinkedList3Iterator_Next */
    method Step() returns (x: Option<T>)
      requires Valid() && !lost
      modifies this`at, this`linked
      ensures Valid() && (x.Some? ==> linked)
      ensures if old(Rest()) == [] then x == None && Rest() == [] else x == Some(old(Rest())[0]) && Rest() == old(Rest())[1..]
    {
      hide Succ, Pred, NoDup;
      x := at;
      if at.Some? {
        assert NodeOk(next, prev, list, at.value);
        NeighboursIn(list[at.value], at.value);
        OnwardStep(list[at.value], at.value);
        at, linked := next[at.value], true;
      }
    }
  }
}
