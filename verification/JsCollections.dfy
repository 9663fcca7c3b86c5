/** JavaScript maps with string keys: they remember the order of insertion. */
module JsCollections {
  datatype JsMap<V> = JsMap(order: seq<string>, at: map<string, V>) {
    ghost predicate Wf() {
      && (forall k :: k in order <==> k in at)
      && NoRepeats(order)
    }

    function Set(k: string, v: V): (m: JsMap<V>)
      ensures Wf() ==> m.Wf()
    {
      NoRepeatsMore(order, k);
      JsMap(if k in at then order else order + [k], at[k := v])
    }

    function Delete(k: string): (m: JsMap<V>)
      requires Wf()
      ensures m.Wf() && m.at == at - {k}
    {
      JsMap(Without(order, k), at - {k})
    }

    function Values(): (values: seq<V>)
      requires Wf()
      ensures |values| == |order| && forall i | 0 <= i < |order| :: values[i] == at[order[i]]
    {
      seq(|order|, i requires 0 <= i < |order| => assert order[i] in order; at[order[i]])
    }
  }

  ghost predicate NoRepeats<T>(s: seq<T>) {
    forall j | 0 <= j < |s| :: NewAt(s, j)
  }

  ghost predicate NewAt<T>(s: seq<T>, j: nat)
    requires j < |s|
  {
    s[j] !in s[..j]
  }

  lemma NoRepeatsMore<T>(s: seq<T>, x: T)
    ensures NoRepeats(s + [x]) <==> NoRepeats(s) && x !in s
  {
    var t := s + [x];
    forall j | 0 <= j < |s| ensures NewAt(t, j) <==> NewAt(s, j) {
      assert t[..j] == s[..j];
    }
    assert t[..|s|] == s;
    assert NewAt(t, |s|) <==> x !in s;
  }

  function Without(keys: seq<string>, k: string): (rest: seq<string>)
    ensures forall x :: x in rest <==> x in keys && x != k
    ensures NoRepeats(keys) ==> NoRepeats(rest)
  {
    if keys == [] then []
    else
      var first, last := keys[..|keys| - 1], keys[|keys| - 1];
      var rest := Without(first, k);
      assert keys == first + [last];
      NoRepeatsMore(first, last);
      NoRepeatsMore(rest, last);
      if last == k then rest else rest + [last]
  }

  /** The elements of a list in the order of their first occurrence. */
  function Unique<T(==,!new)>(s: seq<T>): (u: seq<T>)
    ensures forall x :: x in u <==> x in s
    ensures NoRepeats(u)
  {
    if s == [] then []
    else
      var first, last := s[..|s| - 1], s[|s| - 1];
      assert s == first + [last];
      var u := Unique(first);
      NoRepeatsMore(u, last);
      if last in u then u else u + [last]
  }

  /** Where an element occurs first. */
  function FirstIndex<T(==)>(s: seq<T>, x: T): (k: nat)
    requires x in s
    ensures k < |s| && s[k] == x && x !in s[..k]
  {
    if s[0] == x then 0
    else
      var k := FirstIndex(s[1..], x);
      assert s[..k + 1] == [s[0]] + s[1..][..k];
      k + 1
  }

  /** The elements of u stand in the order in which they first occur in s. */
  ghost predicate InFirstOrder<T>(s: seq<T>, u: seq<T>) {
    && (forall x | x in u :: x in s)
    && forall i, j | 0 <= i < j < |u| :: FirstIndex(s, u[i]) < FirstIndex(s, u[j])
  }

  lemma FirstIndexStays<T>(s: seq<T>, last: T, x: T)
    requires x in s
    ensures FirstIndex(s + [last], x) == FirstIndex(s, x)
  {
    var t := s + [last];
    var k, l := FirstIndex(t, x), FirstIndex(s, x);
    forall i | 0 <= i < k ensures t[i] != x {
      assert t[..k][i] == t[i];
    }
    forall i | 0 <= i < l ensures s[i] != x {
      assert s[..l][i] == s[i];
    }
    assert t[l] == s[l] && forall i | 0 <= i < l :: t[i] == s[i];
  }

  lemma {:induction false} UniqueInOrder<T(!new)>(s: seq<T>)
    ensures InFirstOrder(s, Unique(s))
  {
    if s != [] {
      var first, last := s[..|s| - 1], s[|s| - 1];
      assert s == first + [last];
      UniqueInOrder(first);
      var u := Unique(first);
      forall x | x in first ensures FirstIndex(s, x) == FirstIndex(first, x) {
        FirstIndexStays(first, last, x);
      }
      forall i, j | 0 <= i < j < |Unique(s)| ensures FirstIndex(s, Unique(s)[i]) < FirstIndex(s, Unique(s)[j]) {
        assert u[i] in u && u[i] in first;
        if j < |u| {
          assert u[j] in u && u[j] in first;
        } else {
          assert last !in first;
          assert FirstIndex(s, last) == |first|;
        }
      }
    }
  }

  const EMPTY_KEYS: seq<string> := []

  function Empty<V>(): (m: JsMap<V>)
    ensures m.Wf() && m.order == [] && m.at == map[]
  {
    JsMap(EMPTY_KEYS, map[])
  }
}
