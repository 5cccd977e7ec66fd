/**
 * What the dashboard observes of two column operations of its data frame:
 * counting how often a value occurs, and `unique()`, the distinct values of a
 * column in the order of their first occurrence. Both are defined by a scan
 * over the first `n` elements of the column, so that facts about a fixed
 * column can be established one element at a time.
 */
module Series {

  /** No value occurs twice in `s`. */
  predicate NoDup<T(==)>(s: seq<T>) {
    forall i, j :: 0 <= i < j < |s| ==> s[i] != s[j]
  }

  /** A sequence has no repeated value exactly when no value occurs in it twice. */
  lemma {:induction false} NoDupIffSingleOccurrences<T>(s: seq<T>)
    ensures NoDup(s) <==> forall x :: multiset(s)[x] <= 1
  {
    if s != [] {
      var t := s[1..];
      assert s == [s[0]] + t;
      NoDupIffSingleOccurrences(t);
      if NoDup(s) {
        assert s[0] !in t;
        assert NoDup(t);
      }
      if forall x :: multiset(s)[x] <= 1 {
        assert forall x :: multiset(t)[x] <= multiset(s)[x];
        assert s[0] !in t by {
          assert multiset(s)[s[0]] == multiset(t)[s[0]] + 1;
        }
        assert NoDup(s) by {
          forall i, j | 0 <= i < j < |s|
            ensures s[i] != s[j]
          {
            if i == 0 {
              assert s[j] == t[j - 1];
            } else {
              assert s[i] == t[i - 1] && s[j] == t[j - 1];
            }
          }
        }
      }
    }
  }

  /** Rearranging a sequence without repeated values leaves none repeated. */
  lemma PermutationKeepsNoDup<T>(a: seq<T>, b: seq<T>)
    requires multiset(a) == multiset(b)
    requires NoDup(a)
    ensures NoDup(b)
  {
    NoDupIffSingleOccurrences(a);
    NoDupIffSingleOccurrences(b);
  }

  /** Number of occurrences of `x` among the first `n` elements of `s`. */
  function CountUpTo<T(==)>(s: seq<T>, x: T, n: nat): nat
    requires n <= |s|
  {
    if n == 0 then 0 else CountUpTo(s, x, n - 1) + (if s[n - 1] == x then 1 else 0)
  }

  /** The running count is the multiplicity of `x` in the prefix. */
  lemma {:induction false} CountUpToMultiplicity<T>(s: seq<T>, x: T, n: nat)
    requires n <= |s|
    ensures CountUpTo(s, x, n) == multiset(s[..n])[x]
  {
    if n > 0 {
      CountUpToMultiplicity(s, x, n - 1);
      assert s[..n] == s[..n - 1] + [s[n - 1]];
    }
  }

  /** Number of occurrences of `x` in `s`. */
  function Count<T(==)>(s: seq<T>, x: T): (c: nat)
    ensures c == multiset(s)[x]
    ensures c > 0 <==> x in s
  {
    CountUpToMultiplicity(s, x, |s|);
    assert s[..|s|] == s;
    CountUpTo(s, x, |s|)
  }

  /** The position of the first occurrence of `x` in `s`. */
  function FirstIndex<T(==)>(s: seq<T>, x: T): (k: nat)
    requires x in s
    ensures k < |s| && s[k] == x
    ensures forall j :: 0 <= j < k ==> s[j] != x
  {
    if s[0] == x then 0 else 1 + FirstIndex(s[1..], x)
  }

  /** In a sequence without repeated values, each value first occurs where it is. */
  lemma FirstIndexOfNoDup<T>(s: seq<T>, k: nat)
    requires NoDup(s) && k < |s|
    ensures FirstIndex(s, s[k]) == k
  {
    var m := FirstIndex(s, s[k]);
    assert s[m] == s[k];
  }

  /** A sequence that rises at every step rises throughout, so no value repeats. */
  lemma {:induction false} StepwiseIncreasing(s: seq<int>)
    requires forall i :: 0 <= i < |s| - 1 ==> s[i] < s[i + 1]
    ensures forall i, j :: 0 <= i < j < |s| ==> s[i] < s[j]
    ensures NoDup(s)
  {
    if |s| > 1 {
      var r := s[1..];
      assert forall i :: 0 <= i < |r| ==> r[i] == s[i + 1];
      StepwiseIncreasing(r);
      forall i, j | 0 <= i < j < |s|
        ensures s[i] < s[j]
      {
        assert s[j] == r[j - 1];
        if i > 0 {
          assert s[i] == r[i - 1];
        } else if j > 1 {
          assert s[0] < r[0];
        }
      }
    }
  }

  /**
   * The distinct values among the first `n` elements of `s`, each once, in the
   * order in which they first occur.
   */
  function UniqueUpTo<T(==)>(s: seq<T>, n: nat): seq<T>
    requires n <= |s|
  {
    if n == 0 then []
    else
      var u := UniqueUpTo(s, n - 1);
      if s[n - 1] in u then u else u + [s[n - 1]]
  }

  /** The scan keeps each value of the prefix once and nothing else. */
  lemma {:induction false} UniqueUpToValues<T>(s: seq<T>, n: nat)
    requires n <= |s|
    ensures NoDup(UniqueUpTo(s, n))
    ensures forall i :: 0 <= i < |UniqueUpTo(s, n)| ==> UniqueUpTo(s, n)[i] in s[..n]
    ensures forall i :: 0 <= i < n ==> s[i] in UniqueUpTo(s, n)
  {
    if n > 0 {
      UniqueUpToValues(s, n - 1);
      assert s[..n] == s[..n - 1] + [s[n - 1]];
    }
  }

  /** `unique()`: the distinct values of `s`, each once, in first-occurrence order. */
  function Unique<T(==)>(s: seq<T>): (u: seq<T>)
    ensures NoDup(u)
    ensures forall i :: 0 <= i < |u| ==> u[i] in s
    ensures forall i :: 0 <= i < |s| ==> s[i] in u
  {
    UniqueUpToValues(s, |s|);
    assert s[..|s|] == s;
    UniqueUpTo(s, |s|)
  }

  /** `u` lists values of `s` by strictly increasing position of first occurrence. */
  ghost predicate InFirstOccurrenceOrder<T>(s: seq<T>, u: seq<T>) {
    && (forall i :: 0 <= i < |u| ==> u[i] in s)
    && (forall i, j :: 0 <= i < j < |u| ==> FirstIndex(s, u[i]) < FirstIndex(s, u[j]))
  }

  /** Every value the scan of a prefix keeps first occurs inside that prefix. */
  lemma UniqueUpToFirstBefore<T>(s: seq<T>, n: nat)
    requires n <= |s|
    ensures forall x :: x in UniqueUpTo(s, n) ==> x in s && FirstIndex(s, x) < n
  {
    UniqueUpToValues(s, n);
    forall x | x in UniqueUpTo(s, n)
      ensures x in s && FirstIndex(s, x) < n
    {
      var i :| 0 <= i < |UniqueUpTo(s, n)| && UniqueUpTo(s, n)[i] == x;
      var j :| 0 <= j < n && s[..n][j] == x;
      assert s[j] == x;
    }
  }

  /** Appending a value that first occurs after all of `u` keeps first-occurrence order. */
  lemma AppendInFirstOccurrenceOrder<T>(s: seq<T>, u: seq<T>, x: T)
    requires InFirstOccurrenceOrder(s, u) && x in s
    requires forall y :: y in u ==> FirstIndex(s, y) < FirstIndex(s, x)
    ensures InFirstOccurrenceOrder(s, u + [x])
  {
    var v := u + [x];
    forall i, j | 0 <= i < j < |v|
      ensures FirstIndex(s, v[i]) < FirstIndex(s, v[j])
    {
      if j == |u| {
        assert v[i] == u[i] && v[i] in u;
      } else {
        assert v[i] == u[i] && v[j] == u[j];
      }
    }
  }

  /** The scan of a prefix lists its values in first-occurrence order. */
  lemma {:induction false} UniqueUpToOrdered<T>(s: seq<T>, n: nat)
    requires n <= |s|
    ensures InFirstOccurrenceOrder(s, UniqueUpTo(s, n))
  {
    if n > 0 {
      var u := UniqueUpTo(s, n - 1);
      var x := s[n - 1];
      UniqueUpToOrdered(s, n - 1);
      if x !in u {
        UniqueUpToValues(s, n - 1);
        assert x !in s[..n - 1];
        assert FirstIndex(s, x) == n - 1;
        UniqueUpToFirstBefore(s, n - 1);
        AppendInFirstOccurrenceOrder(s, u, x);
      }
    }
  }

  /** `Unique(s)` lists the values of `s` in the order in which they first occur. */
  lemma UniqueIsFirstOccurrenceOrder<T>(s: seq<T>)
    ensures InFirstOccurrenceOrder(s, Unique(s))
  {
    assert s[..|s|] == s;
    UniqueUpToOrdered(s, |s|);
  }

  /** In first-occurrence order, the head comes strictly before every later element. */
  lemma HeadOccursFirst<T>(s: seq<T>, a: seq<T>, x: T)
    requires InFirstOccurrenceOrder(s, a)
    requires a != [] && x in a[1..]
    ensures x in s && a[0] in s && FirstIndex(s, a[0]) < FirstIndex(s, x)
  {
    var i :| 1 <= i < |a| && a[i] == x;
  }

  lemma EmptyTogether<T>(a: seq<T>, b: seq<T>)
    requires forall x :: x in a <==> x in b
    ensures a == [] <==> b == []
  {
    if a != [] { assert a[0] in b; }
    if b != [] { assert b[0] in a; }
  }

  /** Two sequences in first-occurrence order with the same values start alike. */
  lemma SameHead<T>(s: seq<T>, a: seq<T>, b: seq<T>)
    requires InFirstOccurrenceOrder(s, a) && InFirstOccurrenceOrder(s, b)
    requires a != [] && b != []
    requires forall x :: x in a <==> x in b
    ensures a[0] == b[0]
  {
    assert b[0] in a && a[0] in b;
    var i :| 0 <= i < |a| && a[i] == b[0];
    var j :| 0 <= j < |b| && b[j] == a[0];
    assert FirstIndex(s, a[0]) <= FirstIndex(s, b[0]);
    assert FirstIndex(s, b[0]) <= FirstIndex(s, a[0]);
    assert s[FirstIndex(s, a[0])] == a[0];
  }

  /** Dropping a common head from two such sequences leaves tails with the same values. */
  lemma SameTailValues<T>(s: seq<T>, a: seq<T>, b: seq<T>)
    requires InFirstOccurrenceOrder(s, a) && InFirstOccurrenceOrder(s, b)
    requires a != [] && b != [] && a[0] == b[0]
    requires forall x :: x in a <==> x in b
    ensures forall x :: x in a[1..] <==> x in b[1..]
  {
    forall x
      ensures x in a[1..] <==> x in b[1..]
    {
      if x in a[1..] {
        HeadOccursFirst(s, a, x);
        assert x in a && x in b && x != b[0];
      }
      if x in b[1..] {
        HeadOccursFirst(s, b, x);
        assert x in b && x in a && x != a[0];
      }
    }
  }

  /** The tail of a sequence in first-occurrence order is in first-occurrence order. */
  lemma TailInFirstOccurrenceOrder<T>(s: seq<T>, a: seq<T>)
    requires InFirstOccurrenceOrder(s, a) && a != []
    ensures InFirstOccurrenceOrder(s, a[1..])
  {
    forall i, j | 0 <= i < j < |a| - 1
      ensures FirstIndex(s, a[1..][i]) < FirstIndex(s, a[1..][j])
    {
      assert a[1..][i] == a[i + 1] && a[1..][j] == a[j + 1];
    }
  }

  /**
   * Two sequences with the same values, both in first-occurrence order with
   * respect to `s`, are equal.
   */
  lemma {:induction false} FirstOccurrenceOrderDetermines<T>(s: seq<T>, a: seq<T>, b: seq<T>)
    requires InFirstOccurrenceOrder(s, a) && InFirstOccurrenceOrder(s, b)
    requires forall x :: x in a <==> x in b
    ensures a == b
    decreases |a|
  {
    EmptyTogether(a, b);
    if a != [] {
      SameHead(s, a, b);
      SameTailValues(s, a, b);
      TailInFirstOccurrenceOrder(s, a);
      TailInFirstOccurrenceOrder(s, b);
      FirstOccurrenceOrderDetermines(s, a[1..], b[1..]);
      assert a == [a[0]] + a[1..];
      assert b == [b[0]] + b[1..];
    }
  }

  /**
   * `Unique(s)` is the only sequence that holds exactly the values of `s`, each
   * once, in first-occurrence order.
   */
  lemma UniqueCharacterized<T>(s: seq<T>, u: seq<T>)
    requires InFirstOccurrenceOrder(s, u)
    requires forall x :: x in u <==> x in s
    ensures u == Unique(s)
  {
    UniqueIsFirstOccurrenceOrder(s);
    FirstOccurrenceOrderDetermines(s, u, Unique(s));
  }

  lemma {:induction false} UniqueUpToOfNoDup<T>(s: seq<T>, n: nat)
    requires NoDup(s) && n <= |s|
    ensures UniqueUpTo(s, n) == s[..n]
  {
    if n > 0 {
      UniqueUpToOfNoDup(s, n - 1);
      assert s[n - 1] !in s[..n - 1];
      assert s[..n] == s[..n - 1] + [s[n - 1]];
    }
  }

  /** A column without repeated values is its own `unique()`. */
  lemma UniqueOfNoDup<T>(s: seq<T>)
    requires NoDup(s)
    ensures Unique(s) == s
  {
    UniqueUpToOfNoDup(s, |s|);
    assert s[..|s|] == s;
  }
}
