/** Python's stable `sort` and SQL's ORDER BY, for any key order. */
module Sorting {

  ghost predicate TotalPreorder<T(!new)>(leq: (T, T) -> bool) {
    && (forall x, y :: leq(x, y) || leq(y, x))
    && (forall x, y, z {:trigger leq(x, y), leq(y, z)} :: leq(x, y) && leq(y, z) ==> leq(x, z))
  }

  function Insert<T>(x: T, s: seq<T>, leq: (T, T) -> bool): seq<T> {
    if s == [] || leq(x, s[0]) then [x] + s else [s[0]] + Insert(x, s[1..], leq)
  }

  function Sort<T>(s: seq<T>, leq: (T, T) -> bool): seq<T> {
    if s == [] then [] else Insert(s[0], Sort(s[1..], leq), leq)
  }

  ghost predicate Sorted<T>(s: seq<T>, leq: (T, T) -> bool) {
    forall i, j | 0 <= i < j < |s| :: leq(s[i], s[j])
  }

  /** The elements of `s` that no order tells from `x`, in the order they appear. */
  ghost function Ties<T>(s: seq<T>, x: T, leq: (T, T) -> bool): seq<T> {
    if s == [] then []
    else (if leq(x, s[0]) && leq(s[0], x) then [s[0]] else []) + Ties(s[1..], x, leq)
  }

  lemma {:induction false} InsertKeepsElements<T>(x: T, s: seq<T>, leq: (T, T) -> bool)
    ensures multiset(Insert(x, s, leq)) == multiset{x} + multiset(s)
  {
    if s != [] && !leq(x, s[0]) {
      InsertKeepsElements(x, s[1..], leq);
      assert s == [s[0]] + s[1..];
    }
  }

  lemma {:induction false} InsertSorted<T(!new)>(x: T, s: seq<T>, leq: (T, T) -> bool)
    requires TotalPreorder(leq) && Sorted(s, leq)
    ensures Sorted(Insert(x, s, leq), leq)
  {
    if s == [] {
    } else if leq(x, s[0]) {
      assert forall j | 0 <= j < |s| :: leq(x, s[j]);
    } else {
      InsertSorted(x, s[1..], leq);
      InsertKeepsElements(x, s[1..], leq);
      var rest := Insert(x, s[1..], leq);
      forall j | 0 <= j < |rest|
        ensures leq(s[0], rest[j])
      {
        assert rest[j] in multiset(rest);
        assert rest[j] == x || rest[j] in s[1..];
      }
    }
  }

  lemma {:induction false} SortKeepsElements<T>(s: seq<T>, leq: (T, T) -> bool)
    ensures multiset(Sort(s, leq)) == multiset(s)
    ensures |Sort(s, leq)| == |s|
    ensures forall x :: x in Sort(s, leq) <==> x in s
  {
    if s != [] {
      SortKeepsElements(s[1..], leq);
      InsertKeepsElements(s[0], Sort(s[1..], leq), leq);
      assert s == [s[0]] + s[1..];
    }
    assert |multiset(Sort(s, leq))| == |multiset(s)|;
    assert forall x :: x in Sort(s, leq) <==> x in multiset(Sort(s, leq));
  }

  lemma {:induction false} SortSorts<T(!new)>(s: seq<T>, leq: (T, T) -> bool)
    requires TotalPreorder(leq)
    ensures Sorted(Sort(s, leq), leq)
  {
    if s != [] {
      SortSorts(s[1..], leq);
      InsertSorted(s[0], Sort(s[1..], leq), leq);
    }
  }

  lemma {:induction false} InsertTies<T(!new)>(y: T, s: seq<T>, x: T, leq: (T, T) -> bool)
    requires TotalPreorder(leq) && Sorted(s, leq)
    ensures Ties(Insert(y, s, leq), x, leq) == (if leq(x, y) && leq(y, x) then [y] else []) + Ties(s, x, leq)
  {
    var r := Insert(y, s, leq);
    if s == [] || leq(y, s[0]) {
      assert r[1..] == s;
    } else {
      assert r[1..] == Insert(y, s[1..], leq);
      InsertTies(y, s[1..], x, leq);
      if leq(y, x) {
        assert !leq(x, s[0]);
      }
    }
  }

  /** Sorting is stable: elements the order does not tell apart keep their order. */
  lemma {:induction false} SortIsStable<T(!new)>(s: seq<T>, x: T, leq: (T, T) -> bool)
    requires TotalPreorder(leq)
    ensures Ties(Sort(s, leq), x, leq) == Ties(s, x, leq)
  {
    if s != [] {
      SortIsStable(s[1..], x, leq);
      SortSorts(s[1..], leq);
      InsertTies(s[0], Sort(s[1..], leq), x, leq);
    }
  }

  /** Where the order tells every two elements apart, there is only one way to sort. */
  lemma {:induction false} SortedIsUnique<T>(a: seq<T>, b: seq<T>, leq: (T, T) -> bool)
    requires Sorted(a, leq) && Sorted(b, leq) && multiset(a) == multiset(b)
    requires forall x, y | x in a && y in a && leq(x, y) && leq(y, x) :: x == y
    ensures a == b
  {
    if a == [] {
      assert |multiset(b)| == 0;
    } else {
      HeadsAgree(a, b, leq);
      TailElements(a);
      TailElements(b);
      SortedIsUnique(a[1..], b[1..], leq);
    }
  }

  lemma TailElements<T>(a: seq<T>)
    requires a != []
    ensures a == [a[0]] + a[1..] && multiset(a[1..]) == multiset(a) - multiset{a[0]}
    ensures forall x | x in a[1..] :: x in a
  {
    assert a == [a[0]] + a[1..];
  }

  lemma HeadsAgree<T>(a: seq<T>, b: seq<T>, leq: (T, T) -> bool)
    requires Sorted(a, leq) && Sorted(b, leq) && multiset(a) == multiset(b) && a != []
    requires forall x, y | x in a && y in a && leq(x, y) && leq(y, x) :: x == y
    ensures b != [] && a[0] == b[0]
  {
    assert |multiset(a)| == |multiset(b)|;
    assert a[0] in multiset(b) && b[0] in multiset(a);
    var i :| 0 <= i < |b| && b[i] == a[0];
    var j :| 0 <= j < |a| && a[j] == b[0];
  }
}
