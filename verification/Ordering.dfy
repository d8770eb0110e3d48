/** ORDER BY, SELECT DISTINCT and sort.Strings: text order, and sorted lists without repetition. */
module Ordering {

  /** Byte order of text, as in Go's string comparison and SQLite's BINARY collation. */
  predicate TextLess(a: string, b: string) {
    b != [] && (a == [] || a[0] < b[0] || (a[0] == b[0] && TextLess(a[1..], b[1..])))
  }

  /** Text comes first that is a proper beginning, or has the lesser character where the two first
      differ. */
  ghost predicate Precedes(a: string, b: string) {
    exists k :: DiffersAt(a, b, k)
  }

  ghost predicate DiffersAt(a: string, b: string, k: int) {
    0 <= k <= |a| && k < |b| && a[..k] == b[..k] && (k == |a| || a[k] < b[k])
  }

  lemma {:induction false} TextLessMeaning(a: string, b: string)
    ensures TextLess(a, b) <==> Precedes(a, b)
  {
    if a == [] || b == [] || a[0] != b[0] {
      assert b != [] && (a == [] || a[0] < b[0]) ==> DiffersAt(a, b, 0);
      forall k | 0 < k <= |a| && k < |b|
        ensures !DiffersAt(a, b, k)
      {
        assert a[..k][0] == a[0] && b[..k][0] == b[0];
      }
    } else {
      var c, d := a[1..], b[1..];
      TextLessMeaning(c, d);
      assert !DiffersAt(a, b, 0);
      forall k | DiffersAt(c, d, k)
        ensures DiffersAt(a, b, k + 1)
      {
        assert a[..k + 1] == [a[0]] + c[..k] && b[..k + 1] == [b[0]] + d[..k];
      }
      forall k | DiffersAt(a, b, k) && k > 0
        ensures DiffersAt(c, d, k - 1)
      {
        assert c[..k - 1] == a[..k][1..] && d[..k - 1] == b[..k][1..];
      }
    }
  }

  ghost predicate StrictOrder<T(!new)>(less: (T, T) -> bool) {
    && (forall a :: !less(a, a))
    && (forall a, b :: less(a, b) || a == b || less(b, a))
    && (forall a, b, c :: less(a, b) && less(b, c) ==> less(a, c))
  }

  ghost predicate Increasing<T>(less: (T, T) -> bool, s: seq<T>) {
    forall i, j :: 0 <= i < j < |s| ==> less(s[i], s[j])
  }

  lemma {:induction false} TextLessTotal(a: string, b: string)
    ensures TextLess(a, b) || a == b || TextLess(b, a)
  {
    if a != [] && b != [] {
      TextLessTotal(a[1..], b[1..]);
      assert a == [a[0]] + a[1..] && b == [b[0]] + b[1..];
    }
  }

  lemma {:induction false} TextLessIrreflexive(a: string)
    ensures !TextLess(a, a)
  {
    if a != [] {
      TextLessIrreflexive(a[1..]);
    }
  }

  lemma {:induction false} TextLessTransitive(a: string, b: string, c: string)
    requires TextLess(a, b) && TextLess(b, c)
    ensures TextLess(a, c)
  {
    if a != [] && a[0] == b[0] == c[0] {
      TextLessTransitive(a[1..], b[1..], c[1..]);
    }
  }

  function ByText(): (string, string) -> bool {
    (a, b) => TextLess(a, b)
  }

  function ByNumber(): (int, int) -> bool {
    (a, b) => a < b
  }

  lemma TextIsOrdered()
    ensures StrictOrder(ByText())
  {
    forall a: string {
      TextLessIrreflexive(a);
    }
    forall a: string, b: string {
      TextLessTotal(a, b);
    }
    forall a: string, b: string, c: string | TextLess(a, b) && TextLess(b, c)
      ensures TextLess(a, c)
    {
      TextLessTransitive(a, b, c);
    }
  }

  function Insert<T(==)>(less: (T, T) -> bool, x: T, s: seq<T>): seq<T> {
    if s == [] then [x]
    else if x == s[0] then s
    else if less(x, s[0]) then [x] + s
    else [s[0]] + Insert(less, x, s[1..])
  }

  /** The distinct elements of s in increasing order. */
  function DistinctSorted<T(==)>(less: (T, T) -> bool, s: seq<T>): seq<T> {
    if s == [] then [] else Insert(less, s[0], DistinctSorted(less, s[1..]))
  }

  lemma {:induction false} InsertMember<T>(less: (T, T) -> bool, x: T, s: seq<T>, y: T)
    ensures y in Insert(less, x, s) <==> y == x || y in s
  {
    if s != [] {
      InsertMember(less, x, s[1..], y);
    }
  }

  lemma {:induction false} InsertIncreasing<T(!new)>(less: (T, T) -> bool, x: T, s: seq<T>)
    requires StrictOrder(less) && Increasing(less, s)
    ensures Increasing(less, Insert(less, x, s))
  {
    if s != [] && x != s[0] && !less(x, s[0]) {
      InsertIncreasing(less, x, s[1..]);
      var rest := Insert(less, x, s[1..]);
      forall i | 0 <= i < |rest|
        ensures less(s[0], rest[i])
      {
        InsertMember(less, x, s[1..], rest[i]);
      }
    }
  }

  lemma {:induction false} DistinctSortedMember<T>(less: (T, T) -> bool, s: seq<T>, y: T)
    ensures y in DistinctSorted(less, s) <==> y in s
  {
    if s != [] {
      DistinctSortedMember(less, s[1..], y);
      InsertMember(less, s[0], DistinctSorted(less, s[1..]), y);
    }
  }

  lemma {:induction false} DistinctSortedIncreasing<T(!new)>(less: (T, T) -> bool, s: seq<T>)
    requires StrictOrder(less)
    ensures Increasing(less, DistinctSorted(less, s))
  {
    if s != [] {
      DistinctSortedIncreasing(less, s[1..]);
      InsertIncreasing(less, s[0], DistinctSorted(less, s[1..]));
    }
  }
}
