/** Sequence facts the solver does not find by itself at a reasonable price. */
module Seqs {
  lemma Assoc<T>(a: seq<T>, b: seq<T>, c: seq<T>)
    ensures a + (b + c) == (a + b) + c
  {
  }

  lemma EmptyLeft<T>(a: seq<T>)
    ensures [] + a == a
  {
  }

  lemma EmptyConcat<T>(a: seq<T>, b: seq<T>)
    requires |a| == 0
    ensures a + b == b
  {
  }

  lemma TailConcat<T>(a: seq<T>, b: seq<T>)
    requires |a| > 0
    ensures |a + b| > 0 && (a + b)[0] == a[0] && (a + b)[1..] == a[1..] + b
  {
  }

  lemma EmptyRight<T>(a: seq<T>, b: seq<T>)
    requires |b| == 0
    ensures a + b == a
  {
  }

  /** The elements of `s` that satisfy `p`, in order. */
  function Filter<T>(s: seq<T>, p: T -> bool): seq<T> {
    if |s| == 0 then [] else Kept(s[0], p) + Filter(s[1..], p)
  }

  function Kept<T>(x: T, p: T -> bool): seq<T> {
    if p(x) then [x] else []
  }

  lemma {:induction false} FilterConcat<T>(a: seq<T>, b: seq<T>, p: T -> bool)
    ensures Filter(a + b, p) == Filter(a, p) + Filter(b, p)
  {
    if |a| == 0 {
      EmptyConcat(a, b);
      EmptyLeft(Filter(b, p));
    } else {
      FilterConcat(a[1..], b, p);
      TailConcat(a, b);
      Assoc(Kept(a[0], p), Filter(a[1..], p), Filter(b, p));
    }
  }

  lemma {:induction false} FilterMembers<T>(s: seq<T>, p: T -> bool)
    ensures forall x :: x in Filter(s, p) <==> x in s && p(x)
  {
    if |s| > 0 {
      FilterMembers(s[1..], p);
      assert s == [s[0]] + s[1..];
    }
  }

  lemma {:induction false} FilterAll<T>(s: seq<T>, p: T -> bool)
    requires forall i :: 0 <= i < |s| ==> p(s[i])
    ensures Filter(s, p) == s
  {
    if |s| > 0 {
      FilterAll(s[1..], p);
    }
  }

  // ---------------------------------------------------------------- insertion sort

  function Insert<T>(x: T, s: seq<T>, le: (T, T) -> bool): seq<T> {
    if |s| == 0 then [x]
    else if le(x, s[0]) then [x] + s
    else [s[0]] + Insert(x, s[1..], le)
  }

  /** A stable sort of `s` by `le`, standing for the standard library's. */
  function Sort<T>(s: seq<T>, le: (T, T) -> bool): seq<T> {
    if |s| == 0 then [] else Insert(s[0], Sort(s[1..], le), le)
  }

  ghost predicate Sorted<T>(s: seq<T>, le: (T, T) -> bool) {
    forall i, j :: 0 <= i < j < |s| ==> le(s[i], s[j])
  }

  ghost predicate TotalOrder<T(!new)>(le: (T, T) -> bool) {
    && (forall x, y :: le(x, y) || le(y, x))
    && (forall x, y, z :: le(x, y) && le(y, z) ==> le(x, z))
  }

  lemma {:induction false} InsertMembers<T>(x: T, s: seq<T>, le: (T, T) -> bool)
    ensures multiset(Insert(x, s, le)) == multiset(s) + multiset{x}
  {
    if |s| > 0 {
      assert s == [s[0]] + s[1..];
      if !le(x, s[0]) {
        InsertMembers(x, s[1..], le);
      }
    }
  }

  lemma {:induction false} InsertSorted<T(!new)>(x: T, s: seq<T>, le: (T, T) -> bool)
    requires TotalOrder(le) && Sorted(s, le)
    ensures Sorted(Insert(x, s, le), le)
  {
    if |s| > 0 {
      if le(x, s[0]) {
        assert forall j :: 0 < j < |s| ==> le(s[0], s[j]);
      } else {
        InsertSorted(x, s[1..], le);
        var rest := Insert(x, s[1..], le);
        assert forall y :: y in s[1..] ==> le(s[0], y);
        forall j | 0 <= j < |rest|
          ensures le(s[0], rest[j])
        {
          InsertMembers(x, s[1..], le);
          assert rest[j] in multiset(rest);
          assert rest[j] in multiset(s[1..]) + multiset{x};
        }
      }
    }
  }

  lemma {:induction false} SortSorts<T(!new)>(s: seq<T>, le: (T, T) -> bool)
    requires TotalOrder(le)
    ensures Sorted(Sort(s, le), le)
    ensures multiset(Sort(s, le)) == multiset(s)
    ensures forall x :: x in Sort(s, le) <==> x in s
  {
    if |s| > 0 {
      assert s == [s[0]] + s[1..];
      SortSorts(s[1..], le);
      InsertMembers(s[0], Sort(s[1..], le), le);
      InsertSorted(s[0], Sort(s[1..], le), le);
    }
    forall x
      ensures x in Sort(s, le) <==> x in s
    {
      assert x in Sort(s, le) <==> x in multiset(Sort(s, le));
      assert x in s <==> x in multiset(s);
    }
  }
}
