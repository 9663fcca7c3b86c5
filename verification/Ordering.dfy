/** Sorting by an abstract comparison, as `Array.prototype.sort` does: the result is the one
    ascending arrangement of the elements whenever the comparison is a strict total order on them. */
module Ordering {
  ghost predicate StrictOrder<T(!new)>(less: (T, T) -> bool) {
    && (forall x :: !less(x, x))
    && (forall x, y, z :: less(x, y) && less(y, z) ==> less(x, z))
  }

  ghost predicate TotalOn<T>(less: (T, T) -> bool, s: seq<T>) {
    forall i, j | 0 <= i < j < |s| :: less(s[i], s[j]) || less(s[j], s[i])
  }

  ghost predicate Ascending<T>(less: (T, T) -> bool, s: seq<T>) {
    forall j | 0 <= j < |s| :: Above(less, s, j)
  }

  /** The element at j comes after all those before it. */
  ghost predicate Above<T>(less: (T, T) -> bool, s: seq<T>, j: nat)
    requires j < |s|
  {
    forall i | 0 <= i < j :: less(s[i], s[j])
  }

  lemma Rises<T>(less: (T, T) -> bool, s: seq<T>, i: nat, j: nat)
    requires Ascending(less, s) && i < j < |s|
    ensures less(s[i], s[j])
  {
    assert Above(less, s, j);
  }

  /** An ascending sequence is a first element and an ascending rest that comes after it. */
  lemma AscendingCons<T(!new)>(less: (T, T) -> bool, x: T, rest: seq<T>)
    ensures Ascending(less, [x] + rest) <==> Ascending(less, rest) && forall y :: y in rest ==> less(x, y)
  {
    var s := [x] + rest;
    if Ascending(less, s) {
      forall j | 0 <= j < |rest| ensures Above(less, rest, j) && less(x, rest[j]) {
        assert Above(less, s, j + 1) && s[0] == x;
        assert forall i | 0 <= i < j :: rest[i] == s[i + 1];
      }
    }
    if Ascending(less, rest) && forall y :: y in rest ==> less(x, y) {
      forall j | 0 <= j < |s| ensures Above(less, s, j) {
        if j > 0 {
          assert Above(less, rest, j - 1) && rest[j - 1] in rest;
        }
      }
    }
  }

  function Insert<T(==,!new)>(less: (T, T) -> bool, x: T, s: seq<T>): (r: seq<T>)
    ensures multiset(r) == multiset{x} + multiset(s)
  {
    if s == [] then [x]
    else if less(s[0], x) then
      assert s == [s[0]] + s[1..];
      [s[0]] + Insert(less, x, s[1..])
    else [x] + s
  }

  function Sort<T(==,!new)>(less: (T, T) -> bool, s: seq<T>): (r: seq<T>)
    ensures multiset(r) == multiset(s)
    ensures |r| == |s|
    ensures forall x :: x in r <==> x in s
  {
    if s == [] then []
    else
      var r := Insert(less, s[0], Sort(less, s[1..]));
      assert s == [s[0]] + s[1..];
      assert |r| == |multiset(r)| && |s| == |multiset(s)|;
      assert forall x :: (x in r <==> x in multiset(r)) && (x in s <==> x in multiset(s));
      r
  }

  lemma {:induction false} InsertAscends<T(!new)>(less: (T, T) -> bool, x: T, s: seq<T>)
    requires StrictOrder(less) && Ascending(less, s)
    requires forall y | y in s :: less(x, y) || less(y, x)
    ensures Ascending(less, Insert(less, x, s))
  {
    AscendingCons(less, x, s);
    if s != [] {
      assert s == [s[0]] + s[1..];
      AscendingCons(less, s[0], s[1..]);
      if less(s[0], x) {
        var rest := Insert(less, x, s[1..]);
        InsertAscends(less, x, s[1..]);
        forall y | y in rest ensures less(s[0], y) {
          assert y in multiset(rest);
          assert y == x || y in s[1..];
        }
        AscendingCons(less, s[0], rest);
      } else {
        assert less(x, s[0]);
      }
    }
  }

  lemma {:induction false} SortAscends<T(!new)>(less: (T, T) -> bool, s: seq<T>)
    requires StrictOrder(less) && TotalOn(less, s)
    ensures Ascending(less, Sort(less, s))
  {
    if s != [] {
      SortAscends(less, s[1..]);
      InsertAscends(less, s[0], Sort(less, s[1..]));
    }
  }

  /** Ascending arrangements of the same elements are equal. */
  lemma {:induction false} AscendingUnique<T(!new)>(less: (T, T) -> bool, a: seq<T>, b: seq<T>)
    requires StrictOrder(less) && Ascending(less, a) && Ascending(less, b)
    requires forall x :: x in a <==> x in b
    ensures a == b
  {
    if a == [] {
      if b != [] {
        FirstIn(b);
      }
    } else {
      assert a[0] in a && a[0] in b;
      SameHead(less, a, b);
      SplitHead(less, a);
      SplitHead(less, b);
      AscendingUnique(less, a[1..], b[1..]);
      assert a == [a[0]] + a[1..] && b == [b[0]] + b[1..];
    }
  }

  lemma FirstIn<T>(s: seq<T>)
    requires s != []
    ensures s[0] in s
  {
  }

  lemma SameHead<T(!new)>(less: (T, T) -> bool, a: seq<T>, b: seq<T>)
    requires StrictOrder(less) && Ascending(less, a) && Ascending(less, b) && a != [] && b != []
    requires forall x :: x in a <==> x in b
    ensures a[0] == b[0]
  {
    SplitHead(less, a);
    SplitHead(less, b);
    var x, y := a[0], b[0];
    assert x in a && y in b;
    assert less(x, y) && less(y, x) ==> less(x, x);
  }

  lemma SplitHead<T(!new)>(less: (T, T) -> bool, s: seq<T>)
    requires StrictOrder(less) && Ascending(less, s) && s != []
    ensures Ascending(less, s[1..])
    ensures forall x :: x in s[1..] <==> x in s && x != s[0]
    ensures forall x :: x in s ==> x == s[0] || less(s[0], x)
  {
    assert s == [s[0]] + s[1..];
    AscendingCons(less, s[0], s[1..]);
  }

  lemma MapAscends<S, T>(less: (S, S) -> bool, s: seq<S>, below: (T, T) -> bool, keys: seq<T>)
    requires |keys| == |s| && Ascending(less, s)
    requires forall i, j | 0 <= i < j < |s| && less(s[i], s[j]) :: below(keys[i], keys[j])
    ensures Ascending(below, keys)
  {
    forall j | 0 <= j < |s| ensures Above(below, keys, j) {
      assert Above(less, s, j);
    }
  }

  /** Sorting depends on the elements only, not on their order. */
  lemma SortUnique<T(!new)>(less: (T, T) -> bool, s: seq<T>, t: seq<T>)
    requires StrictOrder(less) && TotalOn(less, s) && TotalOn(less, t)
    requires forall x :: x in s <==> x in t
    ensures Sort(less, s) == Sort(less, t)
  {
    SortAscends(less, s);
    SortAscends(less, t);
    AscendingUnique(less, Sort(less, s), Sort(less, t));
  }

  lemma {:induction false} DistinctElements<T>(s: seq<T>)
    requires forall i, j | 0 <= i < j < |s| :: s[i] != s[j]
    ensures |set x | x in s| == |s|
  {
    if s != [] {
      var rest := s[..|s| - 1];
      DistinctElements(rest);
      assert (set x | x in s) == (set x | x in rest) + {s[|s| - 1]};
    }
  }

  lemma SubsetCount<T>(a: set<T>, b: set<T>)
    requires a <= b
    ensures |a| <= |b|
    ensures |a| == |b| ==> a == b
  {
    assert b == a + (b - a);
  }
}
