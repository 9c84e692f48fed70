/** Lexicographic string order, sorting and binary search. */
module Ordering {
  // ----- strings -----

  /** Strict lexicographic order. */
  predicate Less(a: string, b: string) {
    if b == [] then false
    else if a == [] then true
    else a[0] < b[0] || (a[0] == b[0] && Less(a[1..], b[1..]))
  }

  lemma {:induction false} LessIrreflexive(a: string)
    ensures !Less(a, a)
    decreases |a|
  {
    if a != [] {
      LessIrreflexive(a[1..]);
    }
  }

  lemma {:induction false} LessTrans(a: string, b: string, c: string)
    requires Less(a, b) && Less(b, c)
    ensures Less(a, c)
    decreases |a|
  {
    if a != [] && a[0] == b[0] == c[0] {
      LessTrans(a[1..], b[1..], c[1..]);
    }
  }

  lemma {:induction false} LessTotal(a: string, b: string)
    ensures a == b || Less(a, b) || Less(b, a)
    decreases |a|
  {
    if a != [] && b != [] && a[0] == b[0] {
      LessTotal(a[1..], b[1..]);
      assert a == [a[0]] + a[1..] && b == [b[0]] + b[1..];
    }
  }

  /** A string is never below its own prefix. */
  lemma {:induction false} PrefixNotAbove(prefix: string, a: string)
    requires prefix <= a
    ensures !Less(a, prefix)
    decreases |prefix|
  {
    if prefix != [] {
      PrefixNotAbove(prefix[1..], a[1..]);
    }
  }

  /** Between a prefix and a string that starts with it, everything starts with it. */
  lemma {:induction false} PrefixInterval(prefix: string, b: string, c: string)
    requires prefix <= c && !Less(b, prefix) && Less(b, c)
    ensures prefix <= b
    decreases |prefix|
  {
    if prefix != [] {
      assert b[0] == c[0] == prefix[0];
      assert prefix[1..] <= c[1..];
      PrefixInterval(prefix[1..], b[1..], c[1..]);
      assert prefix == [prefix[0]] + prefix[1..] && b == [b[0]] + b[1..];
    }
  }

  // ----- sorting -----

  ghost predicate TotalOrder<T(!new)>(le: (T, T) -> bool) {
    && (forall a, b :: le(a, b) || le(b, a))
    && (forall a, b, c :: le(a, b) && le(b, c) ==> le(a, c))
  }

  ghost predicate SortedBy<T>(le: (T, T) -> bool, s: seq<T>) {
    forall i, j | 0 <= i < j < |s| :: le(s[i], s[j])
  }

  function Insert<T>(le: (T, T) -> bool, s: seq<T>, x: T): seq<T> {
    if s == [] || le(x, s[0]) then [x] + s else [s[0]] + Insert(le, s[1..], x)
  }

  /** The library sort, up to the order of equal elements. */
  function SortBy<T>(le: (T, T) -> bool, s: seq<T>): seq<T> {
    if s == [] then [] else Insert(le, SortBy(le, s[1..]), s[0])
  }

  lemma {:induction false} InsertKeeps<T(!new)>(le: (T, T) -> bool, s: seq<T>, x: T)
    requires TotalOrder(le) && SortedBy(le, s)
    ensures SortedBy(le, Insert(le, s, x))
    ensures multiset(Insert(le, s, x)) == multiset(s) + multiset{x}
    decreases |s|
  {
    if s == [] {
      assert Insert(le, s, x) == [x];
    } else if le(x, s[0]) {
      FrontKeeps(le, x, s);
    } else {
      hide SortedBy;
      TailSorted(le, s);
      InsertKeeps(le, s[1..], x);
      var rest := Insert(le, s[1..], x);
      assert s == [s[0]] + s[1..];
      forall y | y in rest ensures le(s[0], y) {
        assert y in multiset(rest);
        FirstBelow(le, s, x, y);
      }
      Prepended(le, s[0], rest);
    }
  }

  lemma TailSorted<T>(le: (T, T) -> bool, s: seq<T>)
    requires SortedBy(le, s) && s != []
    ensures SortedBy(le, s[1..])
  {
  }

  lemma FirstBelow<T(!new)>(le: (T, T) -> bool, s: seq<T>, x: T, y: T)
    requires TotalOrder(le) && SortedBy(le, s) && s != [] && !le(x, s[0]) && y in multiset(s[1..]) + multiset{x}
    ensures le(s[0], y)
  {
    assert y == x || y in s[1..];
  }

  lemma Prepended<T>(le: (T, T) -> bool, x: T, s: seq<T>)
    requires SortedBy(le, s) && forall y | y in s :: le(x, y)
    ensures SortedBy(le, [x] + s)
  {
  }

  lemma FrontKeeps<T(!new)>(le: (T, T) -> bool, x: T, s: seq<T>)
    requires TotalOrder(le) && SortedBy(le, s) && s != [] && le(x, s[0])
    ensures SortedBy(le, [x] + s)
  {
    forall y | y in s ensures le(x, y) {
      var j :| 0 <= j < |s| && s[j] == y;
      assert j > 0 ==> le(s[0], s[j]);
    }
    Prepended(le, x, s);
  }

  lemma {:induction false} SortKeeps<T(!new)>(le: (T, T) -> bool, s: seq<T>)
    requires TotalOrder(le)
    ensures SortedBy(le, SortBy(le, s)) && multiset(SortBy(le, s)) == multiset(s)
    decreases |s|
  {
    if s != [] {
      SortKeeps(le, s[1..]);
      InsertKeeps(le, SortBy(le, s[1..]), s[0]);
      assert s == [s[0]] + s[1..];
    }
  }

  // ----- binary search -----

  /** `before` holds on an initial part of the values only. */
  ghost predicate Partitioned<T>(values: seq<T>, before: T -> bool) {
    forall i, j | 0 <= i < j < |values| :: before(values[j]) ==> before(values[i])
  }

  method LowerBound<T>(values: seq<T>, before: T -> bool) returns (low: nat)
    requires Partitioned(values, before)
    ensures low <= |values|
    ensures forall i | 0 <= i < |values| :: before(values[i]) <==> i < low
  {
    low := 0;
    var high := |values|;
    while low < high
      invariant low <= high <= |values|
      invariant forall i | 0 <= i < low :: before(values[i])
      invariant forall i | high <= i < |values| :: !before(values[i])
    {
      var middle := low + (high - low) / 2;
      if before(values[middle]) {
        forall i | 0 <= i < middle ensures before(values[i]) {
          assert before(values[middle]) ==> before(values[i]);
        }
        low := middle + 1;
      } else {
        forall i | middle < i < |values| ensures !before(values[i]) {
          assert !before(values[middle]);
        }
        high := middle;
      }
    }
  }
}
