/** `Itertools::interleave` and what it keeps. */
module Interleaving {
  import opened Prelude

  /** Elements of `a` and `b` in turn, starting with `a`; when one runs out, the rest of the other. */
  function Interleave<T>(a: seq<T>, b: seq<T>): (r: seq<T>)
    ensures |r| == |a| + |b|
    decreases |a| + |b|
  {
    if a == [] then b else [a[0]] + Interleave(b, a[1..])
  }

  /** Where every element of both sequences ends up. */
  lemma {:induction false} InterleaveAlternates<T>(a: seq<T>, b: seq<T>)
    ensures forall i | 0 <= i < |a| :: Interleave(a, b)[i + Min(i, |b|)] == a[i]
    ensures forall j | 0 <= j < |b| :: Interleave(a, b)[j + Min(j + 1, |a|)] == b[j]
    decreases |a| + |b|
  {
    if a != [] {
      var rest := Interleave(b, a[1..]);
      InterleaveAlternates(b, a[1..]);
      forall i | 0 <= i < |a| ensures Interleave(a, b)[i + Min(i, |b|)] == a[i] {
        if i > 0 {
          assert rest[i - 1 + Min(i, |b|)] == a[1..][i - 1];
        }
      }
      forall j | 0 <= j < |b| ensures Interleave(a, b)[j + Min(j + 1, |a|)] == b[j] {
        assert rest[j + Min(j, |a| - 1)] == b[j];
      }
    }
  }

  lemma {:induction false} InterleaveMultiset<T>(a: seq<T>, b: seq<T>)
    ensures multiset(Interleave(a, b)) == multiset(a) + multiset(b)
    decreases |a| + |b|
  {
    if a != [] {
      InterleaveMultiset(b, a[1..]);
      assert a == [a[0]] + a[1..];
    }
  }

  predicate Subsequence<T(==)>(a: seq<T>, b: seq<T>) {
    a == [] ||
    (b != [] && ((a[0] == b[0] && Subsequence(a[1..], b[1..])) || Subsequence(a, b[1..])))
  }

  lemma {:induction false} SubsequenceReflexive<T>(a: seq<T>)
    ensures Subsequence(a, a)
  {
    if a != [] {
      SubsequenceReflexive(a[1..]);
    }
  }

  lemma {:induction false} SubsequenceTransitive<T>(a: seq<T>, b: seq<T>, c: seq<T>)
    requires Subsequence(a, b) && Subsequence(b, c)
    ensures Subsequence(a, c)
    decreases |c|
  {
    if a != [] {
      if b[0] == c[0] && Subsequence(b[1..], c[1..]) {
        if a[0] == b[0] && Subsequence(a[1..], b[1..]) {
          SubsequenceTransitive(a[1..], b[1..], c[1..]);
        } else {
          SubsequenceTransitive(a, b[1..], c[1..]);
        }
      } else {
        SubsequenceTransitive(a, b, c[1..]);
      }
    }
  }

  /** Neither sequence is reordered. */
  lemma {:induction false} InterleaveKeepsOrder<T>(a: seq<T>, b: seq<T>)
    ensures Subsequence(a, Interleave(a, b))
    ensures Subsequence(b, Interleave(a, b))
    decreases |a| + |b|
  {
    if a == [] {
      SubsequenceReflexive(b);
    } else {
      InterleaveKeepsOrder(b, a[1..]);
      assert Interleave(a, b)[1..] == Interleave(b, a[1..]);
    }
  }

  /** Interleaving a list of sequences from the left. */
  function InterleaveAll<T>(first: seq<T>, others: seq<seq<T>>): seq<T>
    decreases others
  {
    if others == [] then first else InterleaveAll(Interleave(first, others[0]), others[1..])
  }

  function Contents<T>(lists: seq<seq<T>>): multiset<T> {
    if lists == [] then multiset{} else multiset(lists[0]) + Contents(lists[1..])
  }

  lemma {:induction false} InterleaveAllMultiset<T>(first: seq<T>, others: seq<seq<T>>)
    ensures multiset(InterleaveAll(first, others)) == multiset(first) + Contents(others)
    decreases others
  {
    if others != [] {
      InterleaveMultiset(first, others[0]);
      InterleaveAllMultiset(Interleave(first, others[0]), others[1..]);
    }
  }

  lemma {:induction false} InterleaveAllKeepsOrder<T>(first: seq<T>, others: seq<seq<T>>)
    ensures Subsequence(first, InterleaveAll(first, others))
    ensures forall l | l in others :: Subsequence(l, InterleaveAll(first, others))
    decreases others
  {
    if others == [] {
      SubsequenceReflexive(first);
    } else {
      var next := Interleave(first, others[0]);
      InterleaveKeepsOrder(first, others[0]);
      InterleaveAllKeepsOrder(next, others[1..]);
      SubsequenceTransitive(first, next, InterleaveAll(first, others));
      SubsequenceTransitive(others[0], next, InterleaveAll(first, others));
      assert others == [others[0]] + others[1..];
    }
  }

  lemma {:induction false} InterleaveAllSnoc<T>(first: seq<T>, others: seq<seq<T>>, last: seq<T>)
    ensures InterleaveAll(first, others + [last]) == Interleave(InterleaveAll(first, others), last)
    decreases others
  {
    if others == [] {
      assert others + [last] == [last];
      assert InterleaveAll(Interleave(first, last), []) == Interleave(first, last);
    } else {
      assert (others + [last])[1..] == others[1..] + [last];
      InterleaveAllSnoc(Interleave(first, others[0]), others[1..], last);
    }
  }
}
