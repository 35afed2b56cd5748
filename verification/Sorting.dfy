/** The stable sort of Rust's `slice::sort_by_key`, as a function, with what it guarantees. */
module Sorting {
  ghost predicate TotalPreorder<T(!new)>(leq: (T, T) -> bool) {
    && (forall x, y :: leq(x, y) || leq(y, x))
    && (forall x, y, z :: leq(x, y) && leq(y, z) ==> leq(x, z))
  }

  ghost predicate Antisymmetric<T(!new)>(leq: (T, T) -> bool) {
    forall x, y :: leq(x, y) && leq(y, x) ==> x == y
  }

  ghost predicate Sorted<T>(leq: (T, T) -> bool, s: seq<T>) {
    forall i, j | 0 <= i < j < |s| :: leq(s[i], s[j])
  }

  function Insert<T>(leq: (T, T) -> bool, x: T, s: seq<T>): seq<T> {
    if s == [] then [x]
    else if leq(x, s[0]) then [x] + s
    else [s[0]] + Insert(leq, x, s[1..])
  }

  function Sort<T>(leq: (T, T) -> bool, s: seq<T>): seq<T> {
    if s == [] then [] else Insert(leq, s[0], Sort(leq, s[1..]))
  }

  lemma {:induction false} InsertMultiset<T>(leq: (T, T) -> bool, x: T, s: seq<T>)
    ensures multiset(Insert(leq, x, s)) == multiset{x} + multiset(s)
    ensures |Insert(leq, x, s)| == |s| + 1
  {
    if s != [] && !leq(x, s[0]) {
      InsertMultiset(leq, x, s[1..]);
      assert s == [s[0]] + s[1..];
    }
  }

  lemma {:induction false} InsertSorted<T(!new)>(leq: (T, T) -> bool, x: T, s: seq<T>)
    requires TotalPreorder(leq) && Sorted(leq, s)
    ensures Sorted(leq, Insert(leq, x, s))
  {
    if s != [] && !leq(x, s[0]) {
      InsertSorted(leq, x, s[1..]);
      InsertMultiset(leq, x, s[1..]);
      var t := Insert(leq, x, s[1..]);
      forall j | 0 <= j < |t| ensures leq(s[0], t[j]) {
        assert t[j] in multiset(t);
        assert t[j] == x || t[j] in s[1..];
      }
    } else if s != [] {
      forall j | 0 <= j < |s| ensures leq(x, s[j]) {
        assert j == 0 || leq(s[0], s[j]);
      }
    }
  }

  /** Sorting permutes its input into ascending order. */
  lemma {:induction false} SortOrders<T(!new)>(leq: (T, T) -> bool, s: seq<T>)
    requires TotalPreorder(leq)
    ensures Sorted(leq, Sort(leq, s))
    ensures multiset(Sort(leq, s)) == multiset(s)
    ensures |Sort(leq, s)| == |s|
  {
    if s != [] {
      SortOrders(leq, s[1..]);
      InsertSorted(leq, s[0], Sort(leq, s[1..]));
      InsertMultiset(leq, s[0], Sort(leq, s[1..]));
      assert s == [s[0]] + s[1..];
    }
  }

  lemma {:induction false} SortMembers<T>(leq: (T, T) -> bool, s: seq<T>)
    ensures forall x :: x in Sort(leq, s) <==> x in s
  {
    if s != [] {
      var rest := Sort(leq, s[1..]);
      SortMembers(leq, s[1..]);
      InsertMembers(leq, s[0], rest);
      assert s == [s[0]] + s[1..];
    }
  }

  lemma {:induction false} InsertMembers<T>(leq: (T, T) -> bool, x: T, s: seq<T>)
    ensures forall y :: y in Insert(leq, x, s) <==> y == x || y in s
  {
    if s != [] && !leq(x, s[0]) {
      InsertMembers(leq, x, s[1..]);
      assert s == [s[0]] + s[1..];
    }
  }

  /** `first(a, b)`: a stands somewhere before b. */
  ghost predicate InOrder<T>(first: (T, T) -> bool, s: seq<T>) {
    forall i, j | 0 <= i < j < |s| :: first(s[i], s[j])
  }

  ghost predicate TiesInOrder<T>(leq: (T, T) -> bool, first: (T, T) -> bool, s: seq<T>) {
    forall i, j | 0 <= i < j < |s| && leq(s[j], s[i]) :: first(s[i], s[j])
  }

  lemma {:induction false} InsertStable<T(!new)>(leq: (T, T) -> bool, first: (T, T) -> bool, x: T, s: seq<T>)
    requires TotalPreorder(leq) && Sorted(leq, s) && TiesInOrder(leq, first, s)
    requires forall y | y in s :: first(x, y)
    ensures TiesInOrder(leq, first, Insert(leq, x, s))
  {
    if s != [] && !leq(x, s[0]) {
      var rest := Insert(leq, x, s[1..]);
      InsertStable(leq, first, x, s[1..]);
      InsertMultiset(leq, x, s[1..]);
      forall j | 0 <= j < |rest| && leq(rest[j], s[0]) ensures first(s[0], rest[j]) {
        assert rest[j] in multiset(rest);
        assert rest[j] != x ==> rest[j] in s[1..];
      }
    }
  }

  /** Elements that compare equal keep their original order. */
  lemma {:induction false} SortStable<T(!new)>(leq: (T, T) -> bool, first: (T, T) -> bool, s: seq<T>)
    requires TotalPreorder(leq) && InOrder(first, s)
    ensures TiesInOrder(leq, first, Sort(leq, s))
  {
    if s != [] {
      var rest := Sort(leq, s[1..]);
      SortStable(leq, first, s[1..]);
      SortOrders(leq, s[1..]);
      forall y | y in rest ensures first(s[0], y) {
        assert y in multiset(rest) && y in s[1..];
      }
      InsertStable(leq, first, s[0], rest);
    }
  }

  lemma TailMultiset<T>(s: seq<T>)
    requires s != []
    ensures multiset(s[1..]) == multiset(s) - multiset{s[0]}
  {
    assert s == [s[0]] + s[1..];
  }

  /** Under a total order there is only one ascending arrangement of a multiset. */
  lemma {:induction false} SortedUnique<T(!new)>(leq: (T, T) -> bool, a: seq<T>, b: seq<T>)
    requires TotalPreorder(leq) && Antisymmetric(leq)
    requires Sorted(leq, a) && Sorted(leq, b) && multiset(a) == multiset(b)
    ensures a == b
  {
    assert |a| == |multiset(a)| == |multiset(b)| == |b|;
    if a != [] {
      HeadIsLeast(leq, a, b[0]);
      HeadIsLeast(leq, b, a[0]);
      TailMultiset(a);
      TailMultiset(b);
      SortedUnique(leq, a[1..], b[1..]);
      assert a == [a[0]] + a[1..] && b == [b[0]] + b[1..];
    }
  }

  lemma HeadIsLeast<T(!new)>(leq: (T, T) -> bool, s: seq<T>, x: T)
    requires TotalPreorder(leq) && Sorted(leq, s) && s != []
    ensures x in multiset(s) ==> leq(s[0], x)
  {
    assert leq(s[0], s[0]);
  }

  /** Two sequences sort to the same result exactly when one permutes the other. */
  lemma SortEqual<T(!new)>(leq: (T, T) -> bool, a: seq<T>, b: seq<T>)
    requires TotalPreorder(leq) && Antisymmetric(leq)
    ensures Sort(leq, a) == Sort(leq, b) <==> multiset(a) == multiset(b)
  {
    SortOrders(leq, a);
    SortOrders(leq, b);
    if multiset(a) == multiset(b) {
      SortedUnique(leq, Sort(leq, a), Sort(leq, b));
    }
  }

  /** `Iterator::min_by`: the position of the first least element. */
  function FirstMin<T(!new)>(leq: (T, T) -> bool, s: seq<T>): (r: nat)
    requires TotalPreorder(leq) && s != []
    ensures r < |s|
    ensures forall j | 0 <= j < |s| :: leq(s[r], s[j])
    ensures forall j | 0 <= j < r :: !leq(s[j], s[r])
  {
    if |s| == 1 then 0
    else
      var rest := FirstMin(leq, s[1..]);
      assert forall j | 0 <= j < |s| - 1 :: leq(s[1..][rest], s[1..][j]) && s[1..][j] == s[j + 1];
      if leq(s[0], s[1..][rest]) then 0 else rest + 1
  }
}
