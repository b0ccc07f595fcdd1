// Orders and stable sorting, shared by every component that calls Python's
// `sorted` or `list.sort` with a key.
module Ordering {

  datatype Option<+T> = None | Some(value: T)

  datatype Result<+T, +E> = Ok(value: T) | Err(error: E)

  ghost predicate Total<T(!new)>(leq: (T, T) -> bool) {
    forall x, y :: leq(x, y) || leq(y, x)
  }

  ghost predicate Transitive<T(!new)>(leq: (T, T) -> bool) {
    forall x, y, z :: leq(x, y) && leq(y, z) ==> leq(x, z)
  }

  ghost predicate Sorted<T>(s: seq<T>, leq: (T, T) -> bool) {
    forall i, j :: 0 <= i < j < |s| ==> leq(s[i], s[j])
  }

  // Code-point order on strings, the order Python compares `str` values by.
  predicate LexLeq(a: string, b: string) {
    a == "" || (b != "" && (a[0] < b[0] || (a[0] == b[0] && LexLeq(a[1..], b[1..]))))
  }

  // The strings agree up to here, and here the first has the smaller character.
  ghost predicate DiffersAt(a: string, b: string, i: int) {
    0 <= i < |a| && i < |b| && a[..i] == b[..i] && a[i] < b[i]
  }

  lemma DiffersInTail(a: string, b: string, i: int)
    requires DiffersAt(a, b, i)
    ensures a[0] < b[0] || (a[0] == b[0] && DiffersAt(a[1..], b[1..], i - 1))
  {
    if i > 0 {
      assert a[0] == a[..i][0] == b[..i][0] == b[0];
      assert a[1..][..i - 1] == a[..i][1..] && b[1..][..i - 1] == b[..i][1..];
    }
  }

  lemma TailDiffers(a: string, b: string, i: int)
    requires a != "" && b != "" && a[0] == b[0] && DiffersAt(a[1..], b[1..], i)
    ensures DiffersAt(a, b, i + 1)
  {
    assert a[..i + 1] == [a[0]] + a[1..][..i] && b[..i + 1] == [b[0]] + b[1..][..i];
  }

  // A prefix comes first, and otherwise the first character to differ decides.
  lemma {:induction false} LexExactly(a: string, b: string)
    ensures LexLeq(a, b) <==> a <= b || exists i :: DiffersAt(a, b, i)
  {
    if a != "" && b != "" {
      assert a == [a[0]] + a[1..] && b == [b[0]] + b[1..];
      LexExactly(a[1..], b[1..]);
      if i :| DiffersAt(a, b, i) {
        DiffersInTail(a, b, i);
      }
      if a[0] < b[0] {
        assert DiffersAt(a, b, 0);
      } else if a[0] == b[0] {
        if i :| DiffersAt(a[1..], b[1..], i) {
          TailDiffers(a, b, i);
        }
      }
    }
  }

  lemma {:induction false} LexTotal(a: string, b: string)
    ensures LexLeq(a, b) || LexLeq(b, a)
  {
    if a != "" && b != "" && a[0] == b[0] {
      LexTotal(a[1..], b[1..]);
    }
  }

  lemma {:induction false} LexAntisymmetric(a: string, b: string)
    requires LexLeq(a, b) && LexLeq(b, a)
    ensures a == b
  {
    if a != "" && b != "" {
      LexAntisymmetric(a[1..], b[1..]);
      assert a == [a[0]] + a[1..] && b == [b[0]] + b[1..];
    }
  }

  lemma {:induction false} LexTransitive(a: string, b: string, c: string)
    requires LexLeq(a, b) && LexLeq(b, c)
    ensures LexLeq(a, c)
  {
    if a != "" && a[0] == b[0] && b[0] == c[0] {
      LexTransitive(a[1..], b[1..], c[1..]);
    }
  }

  lemma LexIsOrder()
    ensures Total(LexLeq) && Transitive(LexLeq)
  {
    forall a, b ensures LexLeq(a, b) || LexLeq(b, a) {
      LexTotal(a, b);
    }
    forall a, b, c | LexLeq(a, b) && LexLeq(b, c) ensures LexLeq(a, c) {
      LexTransitive(a, b, c);
    }
  }

  // Python's sort is stable, and a stable sort is unique, so insertion sort
  // from the right computes the same list.
  function SortBy<T>(s: seq<T>, leq: (T, T) -> bool): seq<T> {
    if s == [] then [] else Insert(s[0], SortBy(s[1..], leq), leq)
  }

  function Insert<T>(x: T, s: seq<T>, leq: (T, T) -> bool): seq<T> {
    if s == [] then [x]
    else if leq(x, s[0]) then [x] + s
    else [s[0]] + Insert(x, s[1..], leq)
  }

  lemma {:induction false} InsertKeepsItems<T>(x: T, s: seq<T>, leq: (T, T) -> bool)
    ensures multiset(Insert(x, s, leq)) == multiset{x} + multiset(s)
  {
    if s != [] {
      assert s == [s[0]] + s[1..];
      InsertKeepsItems(x, s[1..], leq);
    }
  }

  lemma {:induction false} InsertKeepsOrder<T(!new)>(x: T, s: seq<T>, leq: (T, T) -> bool)
    requires Total(leq) && Transitive(leq) && Sorted(s, leq)
    ensures Sorted(Insert(x, s, leq), leq)
  {
    if s != [] && !leq(x, s[0]) {
      InsertKeepsOrder(x, s[1..], leq);
      var rest := Insert(x, s[1..], leq);
      InsertKeepsItems(x, s[1..], leq);
      forall y | y in rest ensures leq(s[0], y) {
        assert y in multiset(rest);
        assert y == x || y in s[1..];
      }
    }
  }

  lemma {:induction false} SortKeepsItems<T>(s: seq<T>, leq: (T, T) -> bool)
    ensures multiset(SortBy(s, leq)) == multiset(s)
    ensures |SortBy(s, leq)| == |s|
    ensures forall x :: x in SortBy(s, leq) <==> x in s
  {
    if s != [] {
      SortKeepsItems(s[1..], leq);
      InsertKeepsItems(s[0], SortBy(s[1..], leq), leq);
      assert s == [s[0]] + s[1..];
    }
    assert |SortBy(s, leq)| == |multiset(SortBy(s, leq))|;
    forall x ensures x in SortBy(s, leq) <==> x in s {
      assert x in multiset(SortBy(s, leq)) <==> x in multiset(s);
    }
  }

  lemma {:induction false} SortIsSorted<T(!new)>(s: seq<T>, leq: (T, T) -> bool)
    requires Total(leq) && Transitive(leq)
    ensures Sorted(SortBy(s, leq), leq)
  {
    if s != [] {
      SortIsSorted(s[1..], leq);
      InsertKeepsOrder(s[0], SortBy(s[1..], leq), leq);
    }
  }

  lemma LastIsGreatest<T(!new)>(s: seq<T>, leq: (T, T) -> bool)
    requires Total(leq) && Transitive(leq)
    ensures |SortBy(s, leq)| == |s|
    ensures s != [] ==>
              var last := SortBy(s, leq)[|s| - 1];
              last in s && forall x :: x in s ==> leq(x, last)
  {
    var sorted := SortBy(s, leq);
    SortKeepsItems(s, leq);
    SortIsSorted(s, leq);
    if s != [] {
      forall x | x in s ensures leq(x, sorted[|s| - 1]) {
        var i :| 0 <= i < |sorted| && sorted[i] == x;
        assert leq(sorted[i], sorted[i]);
      }
    }
  }

  // Two sorted lists of the same items agree wherever the order separates items.
  lemma {:induction false} SortedUnique<T(!new)>(a: seq<T>, b: seq<T>, leq: (T, T) -> bool)
    requires Sorted(a, leq) && Sorted(b, leq) && multiset(a) == multiset(b)
    requires forall x, y :: x in a && y in a && leq(x, y) && leq(y, x) ==> x == y
    requires Total(leq)
    ensures a == b
  {
    assert |a| == |multiset(a)| == |multiset(b)| == |b|;
    if a != [] {
      assert a[0] in multiset(b) && b[0] in multiset(a);
      HeadIsLeast(a, b[0], leq);
      HeadIsLeast(b, a[0], leq);
      TailItems(a);
      TailItems(b);
      SortedUnique(a[1..], b[1..], leq);
      assert a == [a[0]] + a[1..] && b == [b[0]] + b[1..];
    }
  }

  lemma HeadIsLeast<T(!new)>(s: seq<T>, x: T, leq: (T, T) -> bool)
    requires Sorted(s, leq) && Total(leq) && x in s
    ensures leq(s[0], x)
  {
    assert leq(s[0], s[0]);
  }

  lemma TailItems<T>(s: seq<T>)
    requires s != []
    ensures multiset(s[1..]) == multiset(s) - multiset{s[0]}
  {
    assert s == [s[0]] + s[1..];
  }

  // ---- filtering and mapping ----

  function Filter<T>(s: seq<T>, p: T -> bool): seq<T> {
    if s == [] then []
    else var n := |s| - 1; Filter(s[..n], p) + if p(s[n]) then [s[n]] else []
  }

  function Map<T, U>(s: seq<T>, f: T -> U): (r: seq<U>)
    ensures |r| == |s| && forall i :: 0 <= i < |s| ==> r[i] == f(s[i])
  {
    seq(|s|, i requires 0 <= i < |s| => f(s[i]))
  }

  lemma MapMembers<S(!new), T>(s: seq<S>, f: S -> T)
    ensures forall y: T :: y in Map(s, f) <==> exists x :: x in s && f(x) == y
  {
    forall x | x in s ensures f(x) in Map(s, f) {
      var i :| 0 <= i < |s| && s[i] == x;
      assert Map(s, f)[i] == f(x);
    }
    forall y | y in Map(s, f) ensures exists x :: x in s && f(x) == y {
      var i :| 0 <= i < |s| && Map(s, f)[i] == y;
      assert s[i] in s && f(s[i]) == y;
    }
  }

  lemma {:induction false} FilterConcat<T>(a: seq<T>, b: seq<T>, p: T -> bool)
    ensures Filter(a + b, p) == Filter(a, p) + Filter(b, p)
  {
    if b == [] {
      assert a + b == a;
    } else {
      var n := |b| - 1;
      assert (a + b)[..|a + b| - 1] == a + b[..n];
      FilterConcat(a, b[..n], p);
    }
  }

  lemma {:induction false} FilterOfMap<T(!new), U>(s: seq<T>, p: T -> bool, f: T -> U, q: U -> bool, r: T -> bool)
    requires forall x :: r(x) == (p(x) && q(f(x)))
    ensures Filter(Map(Filter(s, p), f), q) == Map(Filter(s, r), f)
  {
    if s != [] {
      var n := |s| - 1;
      FilterOfMap(s[..n], p, f, q, r);
      var kept, both := Filter(s[..n], p), Filter(s[..n], r);
      assert Map(kept + [s[n]], f) == Map(kept, f) + [f(s[n])];
      assert Map(both + [s[n]], f) == Map(both, f) + [f(s[n])];
      assert kept + [] == kept && both + [] == both;
      FilterConcat(Map(kept, f), [f(s[n])], q);
      assert [f(s[n])][..0] == [];
      assert Filter([f(s[n])], q) == if q(f(s[n])) then [f(s[n])] else [];
    }
  }

  lemma {:induction false} FilterTwice<T(!new)>(s: seq<T>, p: T -> bool, q: T -> bool, r: T -> bool)
    requires forall x :: r(x) == (p(x) && q(x))
    ensures Filter(Filter(s, p), q) == Filter(s, r)
  {
    if s != [] {
      var n := |s| - 1;
      FilterTwice(s[..n], p, q, r);
      FilterConcat(Filter(s[..n], p), [s[n]], q);
      assert [s[n]][..0] == [];
      assert Filter(s[..n], p) + [] == Filter(s[..n], p) && Filter(s[..n], r) + [] == Filter(s[..n], r);
    }
  }

  lemma {:induction false} FilterFront<T>(x: T, s: seq<T>, p: T -> bool)
    ensures Filter([x] + s, p) == (if p(x) then [x] else []) + Filter(s, p)
  {
    FilterConcat([x], s, p);
    assert [x][..0] == [];
  }

  lemma InsertLeast<T>(x: T, s: seq<T>, leq: (T, T) -> bool)
    requires forall y :: y in s ==> leq(x, y)
    ensures Insert(x, s, leq) == [x] + s
  {
    if s == [] {
      assert [x] + s == [x];
    } else {
      assert s[0] in s;
    }
  }

  lemma {:induction false} FilterInsert<T(!new)>(x: T, s: seq<T>, leq: (T, T) -> bool, p: T -> bool)
    requires Total(leq) && Transitive(leq) && Sorted(s, leq)
    ensures Filter(Insert(x, s, leq), p) == if p(x) then Insert(x, Filter(s, p), leq) else Filter(s, p)
  {
    FilterFront(x, s, p);
    if s == [] {
      assert [x] + [] == [x];
    } else if leq(x, s[0]) {
      assert forall y :: y in s ==> leq(x, y);
      FilterMembers(s, p);
      InsertLeast(x, Filter(s, p), leq);
      InsertLeast(x, s, leq);
    } else {
      var h, t := s[0], s[1..];
      assert s == [h] + t;
      FilterInsert(x, t, leq, p);
      FilterFront(h, t, p);
      FilterFront(h, Insert(x, t, leq), p);
      var kept := Filter(t, p);
      assert [] + kept == kept && [] + Insert(x, kept, leq) == Insert(x, kept, leq);
      assert ([h] + kept)[1..] == kept;
    }
  }

  lemma {:induction false} FilterMembers<T>(s: seq<T>, p: T -> bool)
    ensures forall x :: x in Filter(s, p) <==> x in s && p(x)
  {
    if s != [] {
      var n := |s| - 1;
      FilterMembers(s[..n], p);
      assert s == s[..n] + [s[n]];
    }
  }

  ghost function Places<T(!new)>(s: seq<T>, p: T -> bool): set<int> { set i | 0 <= i < |s| && p(s[i]) }

  lemma OneMorePlace<T(!new)>(front: seq<T>, last: T, p: T -> bool)
    ensures |Places(front + [last], p)| == |Places(front, p)| + if p(last) then 1 else 0
  {
    var s, n := front + [last], |front|;
    assert forall i :: 0 <= i < n ==> s[i] == front[i];
    assert n !in Places(front, p);
    assert Places(s, p) == Places(front, p) + if p(last) then {n} else {};
  }

  // A filter keeps as many items as there are places that satisfy it.
  lemma {:induction false} FilterCounts<T(!new)>(s: seq<T>, p: T -> bool)
    ensures |Filter(s, p)| == |Places(s, p)|
  {
    if s != [] {
      var front, last := s[..|s| - 1], s[|s| - 1];
      FilterCounts(front, p);
      OneMorePlace(front, last, p);
      assert s == front + [last];
    }
  }

  lemma {:induction false} EverythingKept<T>(s: seq<T>, p: T -> bool)
    requires forall x :: x in s ==> p(x)
    ensures Filter(s, p) == s
  {
    if s != [] {
      var front, last := s[..|s| - 1], s[|s| - 1];
      assert s == front + [last];
      EverythingKept(front, p);
    }
  }

  lemma NothingKept<T>(s: seq<T>, p: T -> bool)
    ensures Filter(s, p) == [] <==> forall x :: x in s ==> !p(x)
  {
    FilterMembers(s, p);
    if Filter(s, p) != [] {
      assert Filter(s, p)[0] in Filter(s, p);
    } else {
      assert forall x :: x in s && p(x) ==> x in Filter(s, p);
    }
  }

  // Whatever is read off a list alike with and without its dropped items, item by
  // item, is read off alike from the whole of it.
  lemma {:induction false} DropsOut<T(!new), R>(s: seq<T>, keep: T -> bool, read: seq<T> -> R)
    requires forall front: seq<T>, x: T ::
               read(Filter(front, keep)) == read(front) ==> read(Filter(front + [x], keep)) == read(front + [x])
    ensures read(Filter(s, keep)) == read(s)
    decreases |s|
  {
    if s != [] {
      var front, last := s[..|s| - 1], s[|s| - 1];
      DropsOut(front, keep, read);
      assert s == front + [last];
    }
  }

  // Rendering, filtering and reading the key back lists the items whose rendering is kept.
  lemma KeysKept<S(!new), T(!new)>(s: seq<S>, f: S -> T, p: T -> bool, key: T -> S, x: S)
    requires forall y :: key(f(y)) == y
    ensures x in Map(Filter(Map(s, f), p), key) <==> x in s && p(f(x))
  {
    MapMembers(s, f);
    FilterMembers(Map(s, f), p);
    MapMembers(Filter(Map(s, f), p), key);
    if x in s && p(f(x)) {
      assert f(x) in Filter(Map(s, f), p) && key(f(x)) == x;
    }
  }

  lemma NothingKeptOfMap<S, T>(s: seq<S>, f: S -> T, p: T -> bool)
    ensures Filter(Map(s, f), p) == [] <==> forall x :: x in s ==> !p(f(x))
  {
    NothingKept(Map(s, f), p);
    if Filter(Map(s, f), p) == [] {
      forall x | x in s ensures !p(f(x)) {
        var i :| 0 <= i < |s| && s[i] == x;
        assert Map(s, f)[i] in Map(s, f);
      }
    }
  }

  lemma MapStep<S, T>(s: seq<S>, n: nat, f: S -> T)
    requires n < |s|
    ensures Map(s[..n + 1], f) == Map(s[..n], f) + [f(s[n])]
  {
  }

  // A stable sort commutes with filtering.
  lemma {:induction false} FilterOfSort<T(!new)>(s: seq<T>, leq: (T, T) -> bool, p: T -> bool)
    requires Total(leq) && Transitive(leq)
    ensures Filter(SortBy(s, leq), p) == SortBy(Filter(s, p), leq)
  {
    if s != [] {
      var h, t := s[0], s[1..];
      FilterOfSort(t, leq, p);
      SortIsSorted(t, leq);
      FilterInsert(h, SortBy(t, leq), leq, p);
      assert s == [h] + t;
      FilterFront(h, t, p);
      assert ([h] + Filter(t, p))[1..] == Filter(t, p);
      assert [] + Filter(t, p) == Filter(t, p);
    }
  }

  lemma {:induction false} SortOfTies<T>(s: seq<T>, leq: (T, T) -> bool)
    requires forall x, y :: x in s && y in s ==> leq(x, y)
    ensures SortBy(s, leq) == s
  {
    if s != [] {
      assert s == [s[0]] + s[1..];
      SortOfTies(s[1..], leq);
    }
  }

  // ---- no two items share a key ----

  ghost predicate DistinctBy<T, K>(s: seq<T>, key: T -> K) {
    forall i, j :: 0 <= i < j < |s| ==> key(s[i]) != key(s[j])
  }

  lemma DistinctConcat<T, K>(a: seq<T>, b: seq<T>, key: T -> K)
    ensures DistinctBy(a + b, key) <==>
            DistinctBy(a, key) && DistinctBy(b, key) && forall x, y :: x in a && y in b ==> key(x) != key(y)
  {
    var c := a + b;
    if DistinctBy(c, key) {
      assert forall i :: 0 <= i < |a| ==> c[i] == a[i];
      assert forall j :: 0 <= j < |b| ==> c[|a| + j] == b[j];
    }
  }

  ghost predicate Apart<T, K>(x: T, s: seq<T>, key: T -> K) { forall y :: y in s ==> key(x) != key(y) }

  lemma DistinctFront<T, K>(x: T, s: seq<T>, key: T -> K)
    ensures DistinctBy([x] + s, key) <==> DistinctBy(s, key) && Apart(x, s, key)
  {
    DistinctConcat([x], s, key);
  }

  lemma {:induction false} FilterDistinct<T(!new), K>(s: seq<T>, p: T -> bool, key: T -> K)
    requires DistinctBy(s, key)
    ensures DistinctBy(Filter(s, p), key)
  {
    if s != [] {
      var n := |s| - 1;
      var kept, last := Filter(s[..n], p), s[n];
      assert s == s[..n] + [last];
      DistinctConcat(s[..n], [last], key);
      FilterDistinct(s[..n], p, key);
      FilterMembers(s[..n], p);
      assert last in [last];
      if p(last) {
        assert DistinctBy([last], key);
        forall x | x in kept ensures key(x) != key(last) {
          assert x in s[..n];
        }
        DistinctConcat(kept, [last], key);
      } else {
        assert Filter(s, p) == kept;
      }
    }
  }

  lemma {:induction false} FilterLength<T>(s: seq<T>, p: T -> bool)
    ensures |Filter(s, p)| <= |s|
  {
    if s != [] {
      FilterLength(s[..|s| - 1], p);
    }
  }

  lemma InsertMembers<T>(x: T, s: seq<T>, leq: (T, T) -> bool)
    ensures forall y :: y in Insert(x, s, leq) <==> y == x || y in s
  {
    InsertKeepsItems(x, s, leq);
    forall y ensures y in Insert(x, s, leq) <==> y == x || y in s {
      assert y in multiset(Insert(x, s, leq)) <==> y in multiset{x} + multiset(s);
    }
  }

  lemma {:induction false} InsertKeepsDistinct<T, K>(x: T, s: seq<T>, leq: (T, T) -> bool, key: T -> K)
    ensures DistinctBy(Insert(x, s, leq), key) <==> DistinctBy(s, key) && Apart(x, s, key)
  {
    if s == [] || leq(x, s[0]) {
      DistinctFront(x, s, key);
      assert [x] + [] == [x];
    } else {
      var h, t := s[0], s[1..];
      assert s == [h] + t;
      InsertKeepsDistinct(x, t, leq, key);
      InsertMembers(x, t, leq);
      DistinctFront(h, Insert(x, t, leq), key);
      DistinctFront(h, t, key);
      assert Apart(x, s, key) <==> key(x) != key(h) && Apart(x, t, key);
      assert Apart(h, Insert(x, t, leq), key) <==> key(x) != key(h) && Apart(h, t, key);
    }
  }

  // Sorting neither creates nor resolves a key collision.
  lemma {:induction false} SortKeepsDistinct<T, K>(s: seq<T>, leq: (T, T) -> bool, key: T -> K)
    ensures DistinctBy(SortBy(s, leq), key) <==> DistinctBy(s, key)
  {
    if s != [] {
      var h, t := s[0], s[1..];
      SortKeepsDistinct(t, leq, key);
      InsertKeepsDistinct(h, SortBy(t, leq), leq, key);
      SortKeepsItems(t, leq);
      assert s == [h] + t;
      DistinctFront(h, t, key);
      assert Apart(h, SortBy(t, leq), key) <==> Apart(h, t, key);
    }
  }

  lemma SubsetSize<T>(a: set<T>, b: set<T>)
    requires a <= b
    ensures |a| <= |b|
  {
    assert |b| == |a| + |b - a| by { assert b == a + (b - a); }
  }
}
