/**
 * Sequences that stand for linked lists.
 */
module Lists {
  import opened Bytes

  predicate NoDup<T(==)>(s: seq<T>) {
    forall i, j :: 0 <= i < j < |s| ==> s[i] != s[j]
  }

  function Remove<T(==)>(s: seq<T>, x: T): (r: seq<T>)
    ensures forall y :: y in r ==> y in s
    ensures forall y :: y in s && y != x ==> y in r
    ensures NoDup(s) ==> NoDup(r) && x !in r
    ensures |r| == if x in s then |s| - 1 else |s|
    ensures x !in s ==> r == s
  {
    if s == [] then []
    else if s[0] == x then
      assert NoDup(s) ==> x !in s[1..];
      s[1..]
    else
      var r := Remove(s[1..], x);
      assert NoDup(s) ==> NoDup(s[1..]) && s[0] !in s[1..];
      [s[0]] + r
  }

  // ---- neighbours in a list ----

  /** `e` right behind `ref`, if `ref` is there. */
  function InsertAfter<T(==)>(l: seq<T>, ref: T, e: T): (r: seq<T>)
    ensures ref in l ==> e in r
    ensures forall x :: x in l ==> x in r
    ensures forall x :: x in r ==> x in l || x == e
    ensures NoDup(l) && e !in l ==> NoDup(r)
    ensures ref !in l ==> r == l
  {
    if l == [] then []
    else if l[0] == ref then
      var r := [ref, e] + l[1..];
      assert NoDup(l) && e !in l ==> NoDup(r) by {
        assert NoDup(l) ==> ref !in l[1..];
      }
      assert forall x :: x in l ==> x == l[0] || x in l[1..];
      r
    else
      var t := InsertAfter(l[1..], ref, e);
      assert NoDup(l) ==> NoDup(l[1..]) && l[0] !in l[1..];
      assert forall x :: x in l ==> x == l[0] || x in l[1..];
      [l[0]] + t
  }

  function Position<T(==)>(l: seq<T>, e: T): (k: nat)
    requires e in l
    ensures k < |l| && l[k] == e
  {
    if l[0] == e then 0 else 1 + Position(l[1..], e)
  }

  /** The element behind `e`. */
  function Succ<T(==)>(l: seq<T>, e: T): Option<T>
    requires e in l
  {
    var k := Position(l, e);
    if k + 1 < |l| then Some(l[k + 1]) else None
  }

  /** The element before `e`. */
  function Pred<T(==)>(l: seq<T>, e: T): Option<T>
    requires e in l
  {
    var k := Position(l, e);
    if k > 0 then Some(l[k - 1]) else None
  }

  /** The element behind `e`, or else the one before it. */
  function NextOrPrev<T(==)>(l: seq<T>, e: T): (r: T)
    requires e in l && |l| > 1
    ensures r in l && (NoDup(l) ==> r != e)
  {
    var k := Position(l, e);
    if k + 1 < |l| then l[k + 1] else l[k - 1]
  }

  lemma Neighbours<T>(l: seq<T>, k: nat)
    requires NoDup(l) && k < |l|
    ensures Position(l, l[k]) == k
    ensures Succ(l, l[k]) == if k + 1 < |l| then Some(l[k + 1]) else None
    ensures Pred(l, l[k]) == if k > 0 then Some(l[k - 1]) else None
  {
    var m := Position(l, l[k]);
    assert l[m] == l[k];
  }

  lemma {:induction false} InsertIs<T>(a: seq<T>, ref: T, b: seq<T>, e: T)
    requires ref !in a
    ensures InsertAfter(a + [ref] + b, ref, e) == a + [ref, e] + b
  {
    var l := a + [ref] + b;
    if a == [] {
      assert l[1..] == b && [ref, e] + b == [] + [ref, e] + b;
    } else {
      assert l[1..] == a[1..] + [ref] + b;
      InsertIs(a[1..], ref, b, e);
      assert [a[0]] + (a[1..] + [ref, e] + b) == a + [ref, e] + b;
    }
  }

  lemma {:induction false} RemoveIs<T>(a: seq<T>, x: T, b: seq<T>)
    requires x !in a
    ensures Remove(a + [x] + b, x) == a + b
  {
    var l := a + [x] + b;
    if a == [] {
      assert l[1..] == b;
    } else {
      assert l[1..] == a[1..] + [x] + b;
      RemoveIs(a[1..], x, b);
      assert [a[0]] + (a[1..] + b) == a + b;
    }
  }

  /** A list without repetition, around one of its elements. */
  lemma SplitAt<T>(l: seq<T>, x: T) returns (a: seq<T>, b: seq<T>)
    requires NoDup(l) && x in l
    ensures l == a + [x] + b && x !in a && x !in b && |a| == Position(l, x)
  {
    var k := Position(l, x);
    a, b := l[..k], l[k + 1..];
  }

  // ---- walking a list from one of its elements ----

  /** What a walk that stands at `at` has still to visit. */
  function Onward<T(==)>(l: seq<T>, at: Option<T>): (r: seq<T>)
    ensures forall x :: x in r ==> x in l
    ensures NoDup(l) ==> NoDup(r)
  {
    if l == [] || at == None then [] else if l[0] == at.value then l else Onward(l[1..], at)
  }

  /** One step of the walk. */
  lemma {:induction false} OnwardStep<T>(l: seq<T>, x: T)
    requires NoDup(l) && x in l
    ensures Onward(l, Some(x)) == [x] + Onward(l, Succ(l, x))
  {
    if l[0] == x {
      assert l[1..] == Onward(l[1..], Succ(l, x));
    } else {
      OnwardStep(l[1..], x);
      SuccTail(l, x);
    }
  }

  lemma SuccTail<T>(l: seq<T>, x: T)
    requires NoDup(l) && x in l && l[0] != x
    ensures Succ(l, x) == Succ(l[1..], x) && Succ(l, x) != Some(l[0])
  {
    var k := Position(l, x);
    assert k == 1 + Position(l[1..], x);
  }

  lemma {:induction false} OnwardAppend<T>(l: seq<T>, at: Option<T>, x: T)
    requires at.Some? ==> at.value in l
    ensures Onward(l + [x], at) == if at.Some? then Onward(l, at) + [x] else []
  {
    if at.Some? && l[0] != at.value {
      assert (l + [x])[1..] == l[1..] + [x];
      OnwardAppend(l[1..], at, x);
    }
  }

  /** A walk that stands at the removed element goes on to the next one. */
  lemma {:induction false} OnwardRemove<T>(l: seq<T>, at: Option<T>, e: T)
    requires NoDup(l) && e in l && (at.Some? ==> at.value in l)
    ensures Onward(Remove(l, e), if at == Some(e) then Succ(l, e) else at) == Remove(Onward(l, at), e)
  {
    if at.None? {
      assert Onward(l, at) == [];
    } else if at.value == l[0] {
      if e == l[0] {
        OnwardStep(l, e);
      }
    } else if e != l[0] {
      OnwardRemove(l[1..], at, e);
      SuccTail(l, e);
      assert Remove(l, e)[1..] == Remove(l[1..], e);
    }
  }

  lemma OnwardFront<T>(x: T, t: seq<T>, at: Option<T>)
    ensures Onward([x] + t, at) == if at == Some(x) then [x] + t else Onward(t, at)
  {
    assert ([x] + t)[1..] == t;
  }

  lemma InsertFront<T>(x: T, t: seq<T>, ref: T, e: T)
    ensures InsertAfter([x] + t, ref, e) == if x == ref then [x] + ([e] + t) else [x] + InsertAfter(t, ref, e)
  {
    assert ([x] + t)[1..] == t && [x] + ([e] + t) == [x, e] + t;
  }

  lemma {:induction false} OnwardInsert<T>(l: seq<T>, at: Option<T>, ref: T, e: T)
    requires NoDup(l) && e !in l && at != Some(e)
    ensures Onward(InsertAfter(l, ref, e), at) == InsertAfter(Onward(l, at), ref, e)
  {
    if l != [] {
      var x, t := l[0], l[1..];
      assert l == [x] + t && x !in t && NoDup(t);
      OnwardInsert(t, at, ref, e);
      hide NoDup, Onward, InsertAfter;
      InsertFront(x, t, ref, e);
      OnwardFront(x, t, at);
      OnwardFront(e, t, at);
      OnwardFront(x, [e] + t, at);
      OnwardFront(x, InsertAfter(t, ref, e), at);
    }
  }

  // ---- the part of a list that has a property ----

  /** Where the first element with the property is; |s| if there is none. */
  function First<T>(s: seq<T>, p: T -> bool): (k: nat)
    ensures k <= |s| && (k < |s| ==> p(s[k])) && forall i :: 0 <= i < k ==> !p(s[i])
  {
    if s == [] || p(s[0]) then 0 else 1 + First(s[1..], p)
  }

  function Filter<T>(s: seq<T>, p: T -> bool): (r: seq<T>)
    ensures |r| <= |s|
  {
    if s == [] then []
    else if p(s[0]) then [s[0]] + Filter(s[1..], p)
    else Filter(s[1..], p)
  }

  lemma {:induction false} FilterAppend<T>(a: seq<T>, b: seq<T>, p: T -> bool)
    ensures Filter(a + b, p) == Filter(a, p) + Filter(b, p)
  {
    if a == [] {
      assert a + b == b;
    } else {
      assert (a + b)[1..] == a[1..] + b;
      FilterAppend(a[1..], b, p);
    }
  }

  lemma {:induction false} FilterIn<T>(s: seq<T>, p: T -> bool, x: T)
    ensures x in Filter(s, p) <==> x in s && p(x)
  {
    if s != [] {
      FilterIn(s[1..], p, x);
      assert x in s <==> x == s[0] || x in s[1..];
    }
  }

  /** Nothing is left out exactly if everything has the property. */
  lemma {:induction false} FilterAll<T>(s: seq<T>, p: T -> bool)
    ensures |Filter(s, p)| == |s| <==> forall x :: x in s ==> p(x)
    ensures |Filter(s, p)| == |s| ==> Filter(s, p) == s
  {
    if s != [] {
      FilterAll(s[1..], p);
      assert forall x :: x in s <==> x == s[0] || x in s[1..];
    }
  }

  lemma {:induction false} FilterNone<T>(s: seq<T>, p: T -> bool)
    requires forall x :: x in s ==> !p(x)
    ensures Filter(s, p) == []
  {
    if s != [] {
      FilterNone(s[1..], p);
    }
  }

  lemma {:induction false} FilterSwap<T>(s: seq<T>, p: T -> bool, q: T -> bool)
    ensures Filter(Filter(s, p), q) == Filter(Filter(s, q), p)
  {
    if s != [] {
      FilterSwap(s[1..], p, q);
      FilterFirst(s, p, q);
      FilterFirst(s, q, p);
    }
  }

  lemma FilterFirst<T>(s: seq<T>, p: T -> bool, q: T -> bool)
    requires s != []
    ensures Filter(Filter(s, p), q) ==
            if p(s[0]) && q(s[0]) then [s[0]] + Filter(Filter(s[1..], p), q) else Filter(Filter(s[1..], p), q)
  {
    if p(s[0]) {
      var t := Filter(s[1..], p);
      assert ([s[0]] + t)[0] == s[0] && ([s[0]] + t)[1..] == t;
    }
  }

  /** Leaving out twice what the second property leaves out anyway. */
  lemma {:induction false} FilterAbsorb<T>(s: seq<T>, p: T -> bool, q: T -> bool)
    requires forall x :: x in s && q(x) ==> p(x)
    ensures Filter(Filter(s, p), q) == Filter(s, q)
  {
    if s != [] {
      FilterAbsorb(s[1..], p, q);
      FilterFirst(s, p, q);
    }
  }
}
