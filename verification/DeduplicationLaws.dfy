/** Laws of de-duplication: its result depends on which items are given, not on their order,
    and repeating it changes nothing. */
module DeduplicationLaws {
  import opened Ordering
  import opened CanonicalJson
  import opened Deduplication

  /** Equal up to the order of JSON keys. */
  ghost predicate Alike(orders: Orders, e: Evidence, f: Evidence) {
    && e.observationId == f.observationId && e.providerId == f.providerId
    && Equivalent(CoreJson(e), CoreJson(f))
    && e.sourceIds == f.sourceIds
    && |e.sources| == |f.sources|
    && forall i | 0 <= i < |e.sources| ::
         e.sources[i].sourceId == f.sources[i].sourceId && Equivalent(SourceJson(e.sources[i]), SourceJson(f.sources[i]))
  }

  /** The ids and the other fields make up a JSON object. */
  predicate WellFormed(e: Evidence) {
    Valid(CoreJson(e)) && forall i | 0 <= i < |e.sources| :: Valid(SourceJson(e.sources[i]))
  }

  /** The same keys and values, in any order. */
  predicate SameFields(x: seq<Entry>, y: seq<Entry>) {
    Equivalent(Obj(x), Obj(y))
  }

  predicate FieldIn(e: Entry, y: seq<Entry>) {
    exists k | 0 <= k < |y| :: e.key == y[k].key && Equivalent(e.value, y[k].value)
  }

  lemma FieldsAreIn(x: seq<Entry>, y: seq<Entry>)
    ensures SameFields(x, y) <==> |x| == |y| && forall i | 0 <= i < |x| :: FieldIn(x[i], y)
  {
    var a, b := Obj(x), Obj(y);
    if Equivalent(a, b) {
      forall i | 0 <= i < |x| ensures FieldIn(x[i], y) {
        var k :| 0 <= k < |b.entries| && a.entries[i].key == b.entries[k].key && Equivalent(a.entries[i].value, b.entries[k].value);
      }
    }
    if |x| == |y| && forall i | 0 <= i < |x| :: FieldIn(x[i], y) {
      forall i | 0 <= i < |a.entries|
        ensures exists k :: 0 <= k < |b.entries| && a.entries[i].key == b.entries[k].key && Equivalent(a.entries[i].value, b.entries[k].value)
      {
        assert FieldIn(x[i], y);
      }
    }
  }

  /** One field in front of others is compared by itself. */
  lemma FirstFieldApart(e: Entry, x: seq<Entry>, f: Entry, y: seq<Entry>)
    requires DistinctKeys([e] + x) && DistinctKeys([f] + y) && e.key == f.key
    ensures SameFields([e] + x, [f] + y) <==> Equivalent(e.value, f.value) && SameFields(x, y)
  {
    FieldsAreIn([e] + x, [f] + y);
    FieldsAreIn(x, y);
    if SameFields([e] + x, [f] + y) {
      FieldsWithout(e, x, f, y);
    }
    if Equivalent(e.value, f.value) && SameFields(x, y) {
      FieldsWith(e, x, f, y);
    }
  }

  lemma FieldsWithout(e: Entry, x: seq<Entry>, f: Entry, y: seq<Entry>)
    requires DistinctKeys([e] + x) && DistinctKeys([f] + y) && e.key == f.key
    requires forall i | 0 <= i < |[e] + x| :: FieldIn(([e] + x)[i], [f] + y)
    ensures Equivalent(e.value, f.value) && forall i | 0 <= i < |x| :: FieldIn(x[i], y)
  {
    var left, right := [e] + x, [f] + y;
    assert left[0] == e && right[0].key == e.key && FieldIn(left[0], right);
    var k :| 0 <= k < |right| && e.key == right[k].key && Equivalent(e.value, right[k].value);
    assert k == 0;
    forall i | 0 <= i < |x| ensures FieldIn(x[i], y) {
      assert left[i + 1] == x[i] && FieldIn(left[i + 1], right);
      var k :| 0 <= k < |right| && x[i].key == right[k].key && Equivalent(x[i].value, right[k].value);
      assert left[0].key != left[i + 1].key;
      assert right[k] == y[k - 1];
    }
  }

  lemma FieldsWith(e: Entry, x: seq<Entry>, f: Entry, y: seq<Entry>)
    requires e.key == f.key && Equivalent(e.value, f.value) && forall i | 0 <= i < |x| :: FieldIn(x[i], y)
    ensures forall i | 0 <= i < |[e] + x| :: FieldIn(([e] + x)[i], [f] + y)
  {
    var left, right := [e] + x, [f] + y;
    forall i | 0 <= i < |left| ensures FieldIn(left[i], right) {
      if i == 0 {
        assert right[0] == f;
      } else {
        assert FieldIn(x[i - 1], y);
        var k :| 0 <= k < |y| && x[i - 1].key == y[k].key && Equivalent(x[i - 1].value, y[k].value);
        assert right[k + 1] == y[k];
      }
    }
  }

  lemma RestIsDistinct(e: Entry, x: seq<Entry>)
    requires DistinctKeys([e] + x)
    ensures DistinctKeys(x)
  {
    forall i, j | 0 <= i < j < |x| ensures x[i].key != x[j].key {
      assert x[i] == ([e] + x)[i + 1] && x[j] == ([e] + x)[j + 1];
    }
  }

  /** Everything but the sources is compared. */
  lemma CoresApart(a: Evidence, b: Evidence)
    requires Valid(CoreJson(a)) && Valid(CoreJson(b))
    ensures Equivalent(CoreJson(a), CoreJson(b)) <==>
            a.observationId == b.observationId && a.providerId == b.providerId && SameFields(a.rest, b.rest)
  {
    var p, q := Entry("providerId", Str(a.providerId)), Entry("providerId", Str(b.providerId));
    var e, f := Entry("observationId", Str(a.observationId)), Entry("observationId", Str(b.observationId));
    assert CoreJson(a).entries == [e] + ([p] + a.rest) && CoreJson(b).entries == [f] + ([q] + b.rest);
    FirstFieldApart(e, [p] + a.rest, f, [q] + b.rest);
    RestIsDistinct(e, [p] + a.rest);
    RestIsDistinct(f, [q] + b.rest);
    FirstFieldApart(p, a.rest, q, b.rest);
  }

  lemma SourcesApart(s: Source, t: Source)
    requires Valid(SourceJson(s)) && Valid(SourceJson(t))
    ensures Equivalent(SourceJson(s), SourceJson(t)) <==> s.sourceId == t.sourceId && SameFields(s.rest, t.rest)
  {
    FirstFieldApart(Entry("sourceId", Str(s.sourceId)), s.rest, Entry("sourceId", Str(t.sourceId)), t.rest);
  }

  ghost predicate DescribeDifferently(a: Evidence, b: Evidence) {
    exists s, t :: s in a.sources && t in b.sources && s.sourceId == t.sourceId && !SameFields(s.rest, t.rest)
  }

  /** A clash is a difference in any field that key order does not explain. */
  lemma ClashMeans(orders: Orders, a: Evidence, b: Evidence)
    requires TotalOrders(orders) && Serializes(orders) && WellFormed(a) && WellFormed(b)
    ensures Clash(orders, a, b) <==>
            || a.observationId != b.observationId || a.providerId != b.providerId || !SameFields(a.rest, b.rest)
            || DescribeDifferently(a, b)
  {
    SerializedAlike(orders, CoreJson(a), CoreJson(b));
    CoresApart(a, b);
    DisagreeMeans(orders, a, b);
  }

  lemma DisagreeMeans(orders: Orders, a: Evidence, b: Evidence)
    requires TotalOrders(orders) && Serializes(orders) && WellFormed(a) && WellFormed(b)
    ensures Disagree(orders, a, b) <==> DescribeDifferently(a, b)
  {
    if Disagree(orders, a, b) {
      var s, t :| s in a.sources && t in b.sources && s.sourceId == t.sourceId && !SameSource(orders, s, t);
      SourceMeans(orders, a, b, s, t);
    }
    if DescribeDifferently(a, b) {
      var s, t :| s in a.sources && t in b.sources && s.sourceId == t.sourceId && !SameFields(s.rest, t.rest);
      SourceMeans(orders, a, b, s, t);
      Disagreement(orders, a, b, s, t);
    }
  }

  lemma SourceMeans(orders: Orders, a: Evidence, b: Evidence, s: Source, t: Source)
    requires TotalOrders(orders) && Serializes(orders) && WellFormed(a) && WellFormed(b) && s in a.sources && t in b.sources
    ensures SameSource(orders, s, t) <==> Equivalent(SourceJson(s), SourceJson(t))
    ensures s.sourceId == t.sourceId ==> (SameSource(orders, s, t) <==> SameFields(s.rest, t.rest))
  {
    SerializedAlike(orders, SourceJson(s), SourceJson(t));
    SourcesApart(s, t);
  }

  lemma SerializedAlike(orders: Orders, x: Json, y: Json)
    requires TotalOrders(orders) && Serializes(orders) && Valid(x) && Valid(y)
    ensures orders.stable(x) == orders.stable(y) <==> Equivalent(x, y)
  {
    StableIsCanonical(orders.locale, x, y);
  }

  // ----- merged items with the same id -----

  function SourceIds(sources: seq<Source>): (ids: seq<string>)
    ensures |ids| == |sources| && forall i | 0 <= i < |ids| :: ids[i] == sources[i].sourceId
  {
    seq(|sources|, i requires 0 <= i < |sources| => sources[i].sourceId)
  }

  lemma SourceIdsAscend(orders: Orders, sources: seq<Source>)
    requires Ascending(BySourceId(orders), sources)
    ensures Ascending(orders.locale, SourceIds(sources))
    ensures forall id :: id in SourceIds(sources) <==> Names(sources, id)
  {
    var ids := SourceIds(sources);
    MapAscends(BySourceId(orders), sources, orders.locale, ids);
    forall id ensures id in ids <==> Names(sources, id) {
      if Names(sources, id) {
        var t :| t in sources && t.sourceId == id;
        var i :| 0 <= i < |sources| && sources[i] == t;
        assert ids[i] == id;
      }
      if id in ids {
        var i :| 0 <= i < |ids| && ids[i] == id;
        assert sources[i] in sources;
      }
    }
  }

  lemma SameNames(orders: Orders, input: seq<Evidence>, e: Evidence, f: Evidence, id: string)
    requires Merged(orders, input, e) && Merged(orders, input, f) && e.observationId == f.observationId
    ensures Names(e.sources, id) ==> Names(f.sources, id)
  {
    if Names(e.sources, id) {
      var s :| s in e.sources && s.sourceId == id;
      assert ListsSource(input, e.observationId, s);
    }
  }

  lemma MergedSources(orders: Orders, input: seq<Evidence>, e: Evidence, f: Evidence)
    requires TotalOrders(orders)
    requires Merged(orders, input, e) && Merged(orders, input, f) && e.observationId == f.observationId
    ensures SourceIds(e.sources) == SourceIds(f.sources)
  {
    SourceIdsAscend(orders, e.sources);
    SourceIdsAscend(orders, f.sources);
    forall id ensures Names(e.sources, id) <==> Names(f.sources, id) {
      SameNames(orders, input, e, f, id);
      SameNames(orders, input, f, e, id);
    }
    AscendingUnique(orders.locale, SourceIds(e.sources), SourceIds(f.sources));
  }

  lemma ListedAgree(orders: Orders, input: seq<Evidence>, id: string, s: Source, t: Source)
    requires TotalOrders(orders) && Serializes(orders) && !Conflicting(orders, input, id) && forall a | a in input :: WellFormed(a)
    requires ListsSource(input, id, s) && ListsSource(input, id, t) && s.sourceId == t.sourceId
    ensures Equivalent(SourceJson(s), SourceJson(t))
  {
    var a :| a in input && a.observationId == id && s in a.sources;
    var b :| b in input && b.observationId == id && t in b.sources;
    NotConflicting(orders, input, id, a, b);
    Agreement(orders, a, b, s, t);
    SourceMeans(orders, a, b, s, t);
  }

  lemma MergedCores(orders: Orders, input: seq<Evidence>, e: Evidence, f: Evidence)
    requires TotalOrders(orders) && Serializes(orders) && !Conflicting(orders, input, e.observationId) && forall a | a in input :: WellFormed(a)
    requires Merged(orders, input, e) && Merged(orders, input, f) && e.observationId == f.observationId
    ensures Equivalent(CoreJson(e), CoreJson(f)) && e.providerId == f.providerId
  {
    var a :| a in input && Core(a) == Core(e);
    var b :| b in input && Core(b) == Core(f);
    NotConflicting(orders, input, e.observationId, a, b);
    ClashMeans(orders, a, b);
    assert CoreJson(a) == CoreJson(e) && CoreJson(b) == CoreJson(f);
    CoresApart(a, b);
  }

  lemma MergedAlike(orders: Orders, input: seq<Evidence>, e: Evidence, f: Evidence)
    requires TotalOrders(orders) && Serializes(orders) && !Conflicting(orders, input, e.observationId) && forall a | a in input :: WellFormed(a)
    requires Merged(orders, input, e) && Merged(orders, input, f) && e.observationId == f.observationId
    ensures Alike(orders, e, f)
  {
    MergedCores(orders, input, e, f);
    AscendingUnique(orders.units, e.sourceIds, f.sourceIds);
    MergedSources(orders, input, e, f);
    forall i | 0 <= i < |e.sources|
      ensures e.sources[i].sourceId == f.sources[i].sourceId && Equivalent(SourceJson(e.sources[i]), SourceJson(f.sources[i]))
    {
      var s, t := e.sources[i], f.sources[i];
      assert SourceIds(e.sources)[i] == SourceIds(f.sources)[i];
      assert s in e.sources && t in f.sources;
      ListedAgree(orders, input, e.observationId, s, t);
    }
  }

  // ----- order does not matter -----

  ghost predicate SameItems(s: seq<Evidence>, t: seq<Evidence>) {
    forall e :: e in s <==> e in t
  }

  lemma SameItemsSameSpec(orders: Orders, s: seq<Evidence>, t: seq<Evidence>)
    requires SameItems(s, t)
    ensures forall id :: Conflicting(orders, s, id) ==> Conflicting(orders, t, id)
    ensures forall id :: Occurs(s, id) ==> Occurs(t, id)
    ensures forall e :: Merged(orders, s, e) ==> Merged(orders, t, e)
  {
    forall id | Conflicting(orders, s, id) ensures Conflicting(orders, t, id) {
      var a, b :| a in s && b in s && a.observationId == id && b.observationId == id && Clash(orders, a, b);
    }
    forall id | Occurs(s, id) ensures Occurs(t, id) {
      var i :| 0 <= i < |s| && s[i].observationId == id;
      assert s[i] in t;
    }
    forall id, x ensures ListsId(s, id, x) <==> ListsId(t, id, x) {}
    forall id, x ensures ListsSource(s, id, x) <==> ListsSource(t, id, x) {}
  }

  type RankKey = (string, string)

  function ByRank(orders: Orders): (RankKey, RankKey) -> bool {
    (a: RankKey, b: RankKey) => orders.locale(a.0, b.0) || (a.0 == b.0 && orders.locale(a.1, b.1))
  }

  function Ranks(evidence: seq<Evidence>): (ranks: seq<RankKey>)
    ensures |ranks| == |evidence|
    ensures forall i | 0 <= i < |ranks| :: ranks[i] == (evidence[i].providerId, evidence[i].observationId)
  {
    seq(|evidence|, i requires 0 <= i < |evidence| => (evidence[i].providerId, evidence[i].observationId))
  }

  lemma RanksAscend(orders: Orders, evidence: seq<Evidence>)
    requires TotalOrders(orders) && Ascending(ByProvider(orders), evidence)
    ensures StrictOrder(ByRank(orders)) && Ascending(ByRank(orders), Ranks(evidence))
  {
    var less := ByRank(orders);
    forall x ensures !less(x, x) {
      assert !orders.locale(x.0, x.0) && !orders.locale(x.1, x.1);
    }
    forall x, y, z | less(x, y) && less(y, z) ensures less(x, z) {
      if orders.locale(x.0, y.0) && orders.locale(y.0, z.0) {
        assert orders.locale(x.0, z.0);
      } else if x.0 == y.0 && y.0 == z.0 {
        assert orders.locale(x.1, z.1);
      }
    }
    MapAscends(ByProvider(orders), evidence, less, Ranks(evidence));
  }

  /** Every rank in one result is a rank in a result for the same items. */
  lemma RankFound(orders: Orders, input: seq<Evidence>, ev: seq<Evidence>, c: seq<string>,
                  ev': seq<Evidence>, c': seq<string>, i: nat) returns (j: nat)
    requires TotalOrders(orders) && Serializes(orders) && forall a | a in input :: WellFormed(a)
    requires Deduplicated(orders, input, ev, c) && Deduplicated(orders, input, ev', c')
    requires i < |ev|
    ensures j < |ev'| && Ranks(ev)[i] == Ranks(ev')[j] && Alike(orders, ev[i], ev'[j])
  {
    var e := ev[i];
    assert e in ev;
    CoreOccurs(orders, input, e);
    assert Occurs(ev', e.observationId);
    j :| 0 <= j < |ev'| && ev'[j].observationId == e.observationId;
    assert ev'[j] in ev';
    MergedAlike(orders, input, e, ev'[j]);
  }

  lemma CoreOccurs(orders: Orders, input: seq<Evidence>, e: Evidence)
    requires Merged(orders, input, e)
    ensures Occurs(input, e.observationId)
  {
    var a :| a in input && Core(a) == Core(e);
    var k :| 0 <= k < |input| && input[k] == a;
    assert input[k].observationId == e.observationId;
  }

  /** Two results for the same items have the same ids at the same places. */
  lemma SameRanks(orders: Orders, s: seq<Evidence>, ev: seq<Evidence>, c: seq<string>, ev': seq<Evidence>, c': seq<string>)
    requires TotalOrders(orders) && Serializes(orders) && forall a | a in s :: WellFormed(a)
    requires Deduplicated(orders, s, ev, c) && Deduplicated(orders, s, ev', c')
    ensures Ranks(ev) == Ranks(ev')
  {
    RanksAscend(orders, ev);
    RanksAscend(orders, ev');
    var ranks, ranks' := Ranks(ev), Ranks(ev');
    forall x ensures x in ranks <==> x in ranks' {
      if x in ranks {
        var i :| 0 <= i < |ranks| && ranks[i] == x;
        var j := RankFound(orders, s, ev, c, ev', c', i);
      }
      if x in ranks' {
        var i :| 0 <= i < |ranks'| && ranks'[i] == x;
        var j := RankFound(orders, s, ev', c', ev, c, i);
      }
    }
    AscendingUnique(ByRank(orders), ranks, ranks');
  }

  /** The result is the same, up to the order of JSON keys, for every order of the input. */
  lemma OrderFree(orders: Orders, s: seq<Evidence>, t: seq<Evidence>,
                  ev: seq<Evidence>, c: seq<string>, ev': seq<Evidence>, c': seq<string>)
    requires TotalOrders(orders) && Serializes(orders) && SameItems(s, t) && forall a | a in s :: WellFormed(a)
    requires Deduplicated(orders, s, ev, c) && Deduplicated(orders, t, ev', c')
    ensures c == c'
    ensures |ev| == |ev'| && forall i | 0 <= i < |ev| :: Alike(orders, ev[i], ev'[i])
  {
    SameItemsSameSpec(orders, s, t);
    SameItemsSameSpec(orders, t, s);
    assert Deduplicated(orders, s, ev', c');
    AscendingUnique(orders.units, c, c');
    SameRanks(orders, s, ev, c, ev', c');
    assert |Ranks(ev)| == |ev| && |Ranks(ev')| == |ev'|;
    forall i | 0 <= i < |ev| ensures Alike(orders, ev[i], ev'[i]) {
      var j := RankFound(orders, s, ev, c, ev', c', i);
      assert Ranks(ev')[i] == Ranks(ev')[j];
      SamePlace(ev', i, j);
    }
  }

  lemma SamePlace(evidence: seq<Evidence>, i: nat, j: nat)
    requires DistinctItems(evidence) && i < |evidence| && j < |evidence|
    requires evidence[i].observationId == evidence[j].observationId
    ensures i == j
  {
    assert NewItem(evidence, i) && NewItem(evidence, j);
  }

  // ----- repeating changes nothing -----

  lemma MergedOfOne(orders: Orders, input: seq<Evidence>, e: Evidence, a: Evidence)
    requires TotalOrders(orders) && Merged(orders, input, e)
    requires a in input && Normal(orders, a) && a.observationId == e.observationId
    requires forall b | b in input && b.observationId == a.observationId :: b == a
    ensures e == a
  {
    forall x ensures x in e.sourceIds <==> x in a.sourceIds {
      assert ListsId(input, e.observationId, x) <==> x in a.sourceIds;
    }
    AscendingUnique(orders.units, e.sourceIds, a.sourceIds);
    forall s ensures s in e.sources <==> s in a.sources {
      assert ListsSource(input, e.observationId, s) <==> s in a.sources;
      if s in a.sources {
        var t :| t in e.sources && t.sourceId == s.sourceId;
        assert ListsSource(input, e.observationId, t) <==> t in a.sources;
        AscendingIdsDiffer(orders, a.sources);
        OneSourcePerId(a.sources, s, t);
      }
    }
    StrictSourceOrder(orders);
    AscendingUnique(BySourceId(orders), e.sources, a.sources);
    var b :| b in input && Core(b) == Core(e);
    assert b.observationId == e.observationId;
  }

  /** De-duplicating a result again gives the same evidence and no conflicts. */
  lemma Idempotent(orders: Orders, input: seq<Evidence>, ev: seq<Evidence>, c: seq<string>, ev': seq<Evidence>, c': seq<string>)
    requires TotalOrders(orders) && Deduplicated(orders, input, ev, c) && Deduplicated(orders, ev, ev', c')
    ensures ev' == ev && c' == []
  {
    forall id ensures !Conflicting(orders, ev, id) {
      if Conflicting(orders, ev, id) {
        var a, b :| a in ev && b in ev && a.observationId == id && b.observationId == id && Clash(orders, a, b);
        OneItemPerId(ev, a, b);
        NoClashWithItself(orders, a);
      }
    }
    EmptyOrMember(c');
    forall e ensures e in ev' <==> e in ev {
      if e in ev' {
        var a :| a in ev && Core(a) == Core(e);
        RepeatedItem(orders, input, ev, c, e, a);
      }
      if e in ev {
        var i :| 0 <= i < |ev| && ev[i] == e;
        assert Occurs(ev, e.observationId);
        var j :| 0 <= j < |ev'| && ev'[j].observationId == e.observationId;
        assert ev'[j] in ev';
        RepeatedItem(orders, input, ev, c, ev'[j], e);
      }
    }
    StrictProviderOrder(orders);
    AscendingUnique(ByProvider(orders), ev', ev);
  }

  lemma EmptyOrMember(s: seq<string>)
    ensures s == [] || exists x :: x in s
  {
    if s != [] {
      assert s[0] in s;
    }
  }

  lemma RepeatedItem(orders: Orders, input: seq<Evidence>, ev: seq<Evidence>, c: seq<string>, e: Evidence, a: Evidence)
    requires TotalOrders(orders) && Deduplicated(orders, input, ev, c)
    requires Merged(orders, ev, e) && a in ev && a.observationId == e.observationId
    ensures e == a
  {
    forall b | b in ev && b.observationId == a.observationId ensures b == a {
      OneItemPerId(ev, a, b);
    }
    assert Merged(orders, input, a);
    MergedOfOne(orders, ev, e, a);
  }
}
