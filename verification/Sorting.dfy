/** `Array.prototype.sort`: a stable sort, and what a caller may rely on. */
module Sorting {

  ghost predicate TotalPreorder<T(!new)>(leq: (T, T) -> bool) {
    && (forall x, y :: leq(x, y) || leq(y, x))
    && (forall x, y, z :: leq(x, y) && leq(y, z) ==> leq(x, z))
  }

  /** Puts `x` before the first element it may precede. */
  function Insert<T>(x: T, s: seq<T>, leq: (T, T) -> bool): seq<T> {
    if s == [] || leq(x, s[0]) then [x] + s else [s[0]] + Insert(x, s[1..], leq)
  }

  function Sort<T>(s: seq<T>, leq: (T, T) -> bool): seq<T> {
    if s == [] then [] else Insert(s[0], Sort(s[1..], leq), leq)
  }

  ghost predicate Sorted<T>(s: seq<T>, leq: (T, T) -> bool) {
    forall i, j :: 0 <= i < j < |s| ==> leq(s[i], s[j])
  }

  function Filter<T>(s: seq<T>, keep: T -> bool): seq<T> {
    if s == [] then [] else (if keep(s[0]) then [s[0]] else []) + Filter(s[1..], keep)
  }

  lemma {:induction false} InsertPermutes<T>(x: T, s: seq<T>, leq: (T, T) -> bool)
    ensures multiset(Insert(x, s, leq)) == multiset{x} + multiset(s)
  {
    if !(s == [] || leq(x, s[0])) {
      InsertPermutes(x, s[1..], leq);
      assert s == [s[0]] + s[1..];
    }
  }

  lemma {:induction false} SortPermutes<T>(s: seq<T>, leq: (T, T) -> bool)
    ensures multiset(Sort(s, leq)) == multiset(s)
    ensures |Sort(s, leq)| == |s|
  {
    if s != [] {
      SortPermutes(s[1..], leq);
      InsertPermutes(s[0], Sort(s[1..], leq), leq);
      assert s == [s[0]] + s[1..];
    }
    assert |multiset(Sort(s, leq))| == |Sort(s, leq)|;
  }

  lemma SameElements<T>(a: seq<T>, b: seq<T>)
    requires multiset(a) == multiset(b)
    ensures forall x :: x in a <==> x in b
  {
    forall x ensures x in a <==> x in b {
      assert x in a <==> x in multiset(a);
      assert x in b <==> x in multiset(b);
    }
  }

  lemma {:induction false} InsertSorted<T(!new)>(x: T, s: seq<T>, leq: (T, T) -> bool)
    requires TotalPreorder(leq) && Sorted(s, leq)
    ensures Sorted(Insert(x, s, leq), leq)
  {
    if !(s == [] || leq(x, s[0])) {
      var rest := Insert(x, s[1..], leq);
      InsertSorted(x, s[1..], leq);
      InsertPermutes(x, s[1..], leq);
      forall j | 0 <= j < |rest| ensures leq(s[0], rest[j]) {
        assert rest[j] in multiset(rest);
        assert rest[j] == x || rest[j] in s[1..];
      }
    }
  }

  lemma {:induction false} SortSorts<T(!new)>(s: seq<T>, leq: (T, T) -> bool)
    requires TotalPreorder(leq)
    ensures Sorted(Sort(s, leq), leq)
  {
    if s != [] {
      SortSorts(s[1..], leq);
      InsertSorted(s[0], Sort(s[1..], leq), leq);
    }
  }

  ghost predicate Tied<T(!new)>(keep: T -> bool, leq: (T, T) -> bool) {
    forall x, y :: keep(x) && keep(y) ==> leq(x, y)
  }

  function Head<T>(x: T, keep: T -> bool): seq<T> {
    if keep(x) then [x] else []
  }

  lemma FilterCons<T>(x: T, s: seq<T>, keep: T -> bool)
    ensures Filter([x] + s, keep) == Head(x, keep) + Filter(s, keep)
  {
    assert ([x] + s)[1..] == s;
  }

  lemma {:induction false} InsertStable<T(!new)>(x: T, s: seq<T>, leq: (T, T) -> bool, keep: T -> bool)
    requires Tied(keep, leq)
    ensures Filter(Insert(x, s, leq), keep) == Head(x, keep) + Filter(s, keep)
  {
    if s == [] || leq(x, s[0]) {
      FilterCons(x, s, keep);
    } else {
      hide Filter;
      var rest := s[1..];
      InsertStable(x, rest, leq, keep);
      FilterCons(s[0], Insert(x, rest, leq), keep);
      FilterCons(s[0], rest, keep);
      assert s == [s[0]] + rest;
      assert Head(x, keep) == [] || Head(s[0], keep) == [];
    }
  }

  /** Elements that tie keep the order they came in. */
  lemma {:induction false} SortStable<T(!new)>(s: seq<T>, leq: (T, T) -> bool, keep: T -> bool)
    requires Tied(keep, leq)
    ensures Filter(Sort(s, leq), keep) == Filter(s, keep)
  {
    if s != [] {
      SortStable(s[1..], leq, keep);
      InsertStable(s[0], Sort(s[1..], leq), leq, keep);
    }
  }

  lemma {:induction false} FilterAppend<T>(a: seq<T>, b: seq<T>, keep: T -> bool)
    ensures Filter(a + b, keep) == Filter(a, keep) + Filter(b, keep)
  {
    if a == [] {
      assert a + b == b;
    } else {
      var head := if keep(a[0]) then [a[0]] else [];
      assert (a + b)[1..] == a[1..] + b && (a + b)[0] == a[0];
      FilterAppend(a[1..], b, keep);
      assert head + (Filter(a[1..], keep) + Filter(b, keep)) == (head + Filter(a[1..], keep)) + Filter(b, keep);
    }
  }

  lemma {:induction false} FilterAllOrNone<T>(s: seq<T>, keep: T -> bool)
    ensures (forall x | x in s :: keep(x)) ==> Filter(s, keep) == s
    ensures (forall x | x in s :: !keep(x)) ==> Filter(s, keep) == []
  {
    if s != [] {
      FilterAllOrNone(s[1..], keep);
      assert forall x | x in s[1..] :: x in s;
      assert s == [s[0]] + s[1..];
    }
  }

  lemma {:induction false} FilterMembers<T>(s: seq<T>, keep: T -> bool)
    ensures forall x :: x in Filter(s, keep) <==> x in s && keep(x)
  {
    if s != [] {
      FilterMembers(s[1..], keep);
      assert forall x :: x in s <==> x == s[0] || x in s[1..];
    }
  }

  /** Sorting what is sorted changes nothing. */
  lemma {:induction false} SortSorted<T>(s: seq<T>, leq: (T, T) -> bool)
    requires Sorted(s, leq)
    ensures Sort(s, leq) == s
  {
    if s != [] {
      assert forall i, j :: 0 <= i < j < |s[1..]| ==> s[1..][i] == s[i + 1] && s[1..][j] == s[j + 1];
      SortSorted(s[1..], leq);
    }
  }

  /** Narrowing a list beforehand is harmless exactly when it drops nothing that is kept. */
  lemma {:induction false} FilterWithin<T>(s: seq<T>, read: T -> bool, kept: T -> bool)
    ensures Filter(Filter(s, read), kept) == Filter(s, kept) <==> forall x | x in s :: kept(x) ==> read(x)
  {
    if forall x | x in s :: kept(x) ==> read(x) {
      NarrowedSame(s, read, kept);
    } else {
      var x :| x in s && kept(x) && !read(x);
      FilterMembers(s, kept);
      FilterMembers(s, read);
      FilterMembers(Filter(s, read), kept);
      assert x in Filter(s, kept) && x !in Filter(Filter(s, read), kept);
    }
  }

  lemma {:induction false} NarrowedSame<T>(s: seq<T>, read: T -> bool, kept: T -> bool)
    requires forall x | x in s :: kept(x) ==> read(x)
    ensures Filter(Filter(s, read), kept) == Filter(s, kept)
  {
    if s != [] {
      assert s[0] in s && forall x | x in s[1..] :: x in s;
      NarrowedSame(s[1..], read, kept);
      if read(s[0]) {
        FilterCons(s[0], Filter(s[1..], read), kept);
      } else {
        assert Filter(s, read) == Filter(s[1..], read) && Filter(s, kept) == Filter(s[1..], kept);
      }
    }
  }
}
