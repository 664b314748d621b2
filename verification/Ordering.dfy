/** Lexicographic orders and sorting: what `sorted` means for strings, byte strings and tuples of them. */
module Ordering {

  ghost predicate TotalOrder<T(!new)>(leq: (T, T) -> bool) {
    && (forall x :: leq(x, x))
    && (forall x, y :: leq(x, y) || leq(y, x))
    && (forall x, y :: leq(x, y) && leq(y, x) ==> x == y)
    && (forall x, y, z :: leq(x, y) && leq(y, z) ==> leq(x, z))
  }

  predicate LexLeq<T(==)>(leq: (T, T) -> bool, a: seq<T>, b: seq<T>) {
    if a == [] then true
    else if b == [] then false
    else if a[0] == b[0] then LexLeq(leq, a[1..], b[1..])
    else leq(a[0], b[0])
  }

  /** The lexicographic order built on `leq`, as a function value. */
  function Lex<T(==)>(leq: (T, T) -> bool): (seq<T>, seq<T>) -> bool {
    (a, b) => LexLeq(leq, a, b)
  }

  /** One sequence comes before another: it is a proper prefix, or has the smaller element where they first differ. */
  ghost predicate Precedes<T>(less: (T, T) -> bool, a: seq<T>, b: seq<T>) {
    exists n :: 0 <= n <= |a| && n < |b| && a[..n] == b[..n] && (n == |a| || less(a[n], b[n]))
  }

  /** The recursive comparison is that order, for a strict version of `leq`. */
  lemma {:induction false} LexPrecedes<T(!new)>(leq: (T, T) -> bool, less: (T, T) -> bool, a: seq<T>, b: seq<T>)
    requires forall x, y :: leq(x, y) && x != y ==> less(x, y)
    requires LexLeq(leq, a, b) && a != b
    ensures Precedes(less, a, b)
  {
    if a == [] || b == [] || a[0] != b[0] {
      assert a[..0] == b[..0];
    } else {
      assert a == [a[0]] + a[1..] && b == [b[0]] + b[1..];
      LexPrecedes(leq, less, a[1..], b[1..]);
      var n :| 0 <= n <= |a[1..]| && n < |b[1..]| && a[1..][..n] == b[1..][..n] && (n == |a[1..]| || less(a[1..][n], b[1..][n]));
      assert a[..n + 1] == [a[0]] + a[1..][..n] && b[..n + 1] == [b[0]] + b[1..][..n];
    }
  }

  lemma {:induction false} LexReflexive<T(!new)>(leq: (T, T) -> bool, a: seq<T>)
    ensures LexLeq(leq, a, a)
  {
    if a == [] {
    } else {
      LexReflexive(leq, a[1..]);
    }
  }

  lemma {:induction false} LexConnected<T(!new)>(leq: (T, T) -> bool, a: seq<T>, b: seq<T>)
    requires TotalOrder(leq)
    ensures LexLeq(leq, a, b) || LexLeq(leq, b, a)
  {
    if a != [] && b != [] && a[0] == b[0] {
      LexConnected(leq, a[1..], b[1..]);
    }
  }

  lemma {:induction false} LexAntisymmetric<T(!new)>(leq: (T, T) -> bool, a: seq<T>, b: seq<T>)
    requires TotalOrder(leq)
    requires LexLeq(leq, a, b) && LexLeq(leq, b, a)
    ensures a == b
  {
    if a != [] && b != [] {
      assert a[0] == b[0];
      LexAntisymmetric(leq, a[1..], b[1..]);
      assert a == [a[0]] + a[1..] && b == [b[0]] + b[1..];
    }
  }

  lemma {:induction false} LexTransitive<T(!new)>(leq: (T, T) -> bool, a: seq<T>, b: seq<T>, c: seq<T>)
    requires TotalOrder(leq)
    requires LexLeq(leq, a, b) && LexLeq(leq, b, c)
    ensures LexLeq(leq, a, c)
  {
    if a != [] && a[0] == b[0] == c[0] {
      LexTransitive(leq, a[1..], b[1..], c[1..]);
    }
  }

  lemma LexTotal<T(!new)>(leq: (T, T) -> bool)
    requires TotalOrder(leq)
    ensures TotalOrder(Lex(leq))
  {
    var l := Lex(leq);
    forall x ensures l(x, x) { LexReflexive(leq, x); }
    forall x, y ensures l(x, y) || l(y, x) { LexConnected(leq, x, y); }
    forall x, y | l(x, y) && l(y, x) ensures x == y { LexAntisymmetric(leq, x, y); }
    forall x, y, z | l(x, y) && l(y, z) ensures l(x, z) { LexTransitive(leq, x, y, z); }
  }

  ghost predicate Sorted<T>(leq: (T, T) -> bool, s: seq<T>) {
    forall i, j :: 0 <= i < j < |s| ==> leq(s[i], s[j])
  }

  function Insert<T>(leq: (T, T) -> bool, x: T, s: seq<T>): (r: seq<T>)
    ensures multiset(r) == multiset([x]) + multiset(s)
  {
    if s == [] then [x]
    else if leq(x, s[0]) then [x] + s
    else
      assert s == [s[0]] + s[1..];
      [s[0]] + Insert(leq, x, s[1..])
  }

  /** The sorted list with the same elements, as `sorted` returns it. */
  function Sort<T>(leq: (T, T) -> bool, s: seq<T>): (r: seq<T>)
    ensures multiset(r) == multiset(s)
  {
    if s == [] then []
    else
      assert s == [s[0]] + s[1..];
      Insert(leq, s[0], Sort(leq, s[1..]))
  }

  lemma {:induction false} InsertSorted<T(!new)>(leq: (T, T) -> bool, x: T, s: seq<T>)
    requires TotalOrder(leq) && Sorted(leq, s)
    ensures Sorted(leq, Insert(leq, x, s))
  {
    if s != [] && !leq(x, s[0]) {
      InsertSorted(leq, x, s[1..]);
      var r := Insert(leq, x, s[1..]);
      forall y | y in r ensures leq(s[0], y) {
        assert y in multiset(r);
        assert y == x || y in s[1..];
      }
    }
  }

  lemma {:induction false} SortSorted<T(!new)>(leq: (T, T) -> bool, s: seq<T>)
    requires TotalOrder(leq)
    ensures Sorted(leq, Sort(leq, s))
  {
    if s == [] {
    } else {
      SortSorted(leq, s[1..]);
      InsertSorted(leq, s[0], Sort(leq, s[1..]));
    }
  }

  /** A total order leaves one sorted arrangement of a bag of elements. */
  lemma {:induction false} SortedUnique<T(!new)>(leq: (T, T) -> bool, a: seq<T>, b: seq<T>)
    requires TotalOrder(leq) && Sorted(leq, a) && Sorted(leq, b)
    requires multiset(a) == multiset(b)
    ensures a == b
  {
    assert |multiset(a)| == |multiset(b)|;
    if a == [] {
    } else {
      SmallestFirst(leq, a, b);
      SmallestFirst(leq, b, a);
      assert a[0] == b[0];
      MultisetRest(a);
      MultisetRest(b);
      SortedUnique(leq, a[1..], b[1..]);
      assert a == [a[0]] + a[1..] && b == [b[0]] + b[1..];
    }
  }

  lemma SmallestFirst<T(!new)>(leq: (T, T) -> bool, a: seq<T>, b: seq<T>)
    requires TotalOrder(leq) && Sorted(leq, a) && a != [] && b != [] && multiset(a) == multiset(b)
    ensures leq(a[0], b[0])
  {
    assert b[0] in multiset(a);
    var i :| 0 <= i < |a| && a[i] == b[0];
  }

  lemma MultisetRest<T>(s: seq<T>)
    requires s != []
    ensures multiset(s[1..]) == multiset(s) - multiset{s[0]}
  {
    assert s == [s[0]] + s[1..];
  }

  /** Sorting forgets the order of its input. */
  lemma SortOrderFree<T(!new)>(leq: (T, T) -> bool, a: seq<T>, b: seq<T>)
    requires TotalOrder(leq) && multiset(a) == multiset(b)
    ensures Sort(leq, a) == Sort(leq, b)
  {
    SortSorted(leq, a);
    SortSorted(leq, b);
    SortedUnique(leq, Sort(leq, a), Sort(leq, b));
  }

  /* ---- What a list gathers, whatever its order ---- */

  function Gather<A, B>(f: A -> multiset<B>, s: seq<A>): multiset<B> {
    if s == [] then multiset{} else Gather(f, s[..|s| - 1]) + f(s[|s| - 1])
  }

  lemma {:induction false} GatherConcat<A, B>(f: A -> multiset<B>, a: seq<A>, b: seq<A>)
    ensures Gather(f, a + b) == Gather(f, a) + Gather(f, b)
  {
    if b == [] {
      assert a + b == a;
    } else {
      var n := |b| - 1;
      GatherConcat(f, a, b[..n]);
      assert (a + b)[..|a + b| - 1] == a + b[..n] && (a + b)[|a + b| - 1] == b[n];
    }
  }

  /** Taking one element out. */
  lemma MultisetWithout<A>(s: seq<A>, j: nat)
    requires j < |s|
    ensures multiset(s[..j] + s[j + 1..]) == multiset(s) - multiset{s[j]}
  {
    assert s == s[..j] + ([s[j]] + s[j + 1..]);
  }

  lemma GatherWithout<A, B>(f: A -> multiset<B>, s: seq<A>, j: nat)
    requires j < |s|
    ensures Gather(f, s) == Gather(f, s[..j] + s[j + 1..]) + f(s[j])
  {
    assert s == s[..j] + ([s[j]] + s[j + 1..]);
    GatherConcat(f, s[..j], [s[j]] + s[j + 1..]);
    GatherConcat(f, [s[j]], s[j + 1..]);
    GatherConcat(f, s[..j], s[j + 1..]);
    assert [s[j]][..0] == [];
  }

  lemma {:induction false} GatherOrderFree<A, B>(f: A -> multiset<B>, a: seq<A>, b: seq<A>)
    requires multiset(a) == multiset(b)
    ensures Gather(f, a) == Gather(f, b)
  {
    assert |multiset(a)| == |multiset(b)|;
    if a == [] {
    } else {
      var n := |a| - 1;
      assert a[n] in multiset(b);
      var j :| 0 <= j < |b| && b[j] == a[n];
      GatherWithout(f, a, n);
      GatherWithout(f, b, j);
      MultisetWithout(a, n);
      MultisetWithout(b, j);
      assert a[..n] + a[n + 1..] == a[..n];
      GatherOrderFree(f, a[..n], b[..j] + b[j + 1..]);
    }
  }
}
