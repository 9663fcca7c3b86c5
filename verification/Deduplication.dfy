/** De-duplication of canonical evidence: equivalent items merge, contradictory ones
    poison their id. */
module Deduplication {
  import opened Basics
  import opened Ordering
  import opened CanonicalJson
  import opened JsCollections

  /** `rest` holds the fields other than the id. */
  datatype Source = Source(sourceId: string, rest: seq<Entry>)

  /** `rest` holds the fields other than the ids and the sources. */
  datatype Evidence = Evidence(
    observationId: string, providerId: string, rest: seq<Entry>,
    sourceIds: seq<string>, sources: seq<Source>)

  function SourceJson(s: Source): Json {
    Obj([Entry("sourceId", Str(s.sourceId))] + s.rest)
  }

  function CoreJson(e: Evidence): Json {
    Obj([Entry("observationId", Str(e.observationId)), Entry("providerId", Str(e.providerId))] + e.rest)
  }

  /** The two comparisons in use, `localeCompare` and the default order of `sort`, and the
      serializer that decides which values are the same. */
  datatype Orders = Orders(locale: Collation, units: Collation, stable: Json -> string)

  ghost predicate TotalOrders(orders: Orders) {
    Total(orders.locale) && Total(orders.units)
  }

  /** The serializer in use is the canonical one. */
  ghost predicate Serializes(orders: Orders) {
    forall j :: orders.stable(j) == Stable(orders.locale, j)
  }

  function BySourceId(orders: Orders): (Source, Source) -> bool {
    (a: Source, b: Source) => orders.locale(a.sourceId, b.sourceId)
  }

  function ByProvider(orders: Orders): (Evidence, Evidence) -> bool {
    (a: Evidence, b: Evidence) =>
      orders.locale(a.providerId, b.providerId) ||
      (a.providerId == b.providerId && orders.locale(a.observationId, b.observationId))
  }

  /** Source lists are sorted and free of repeated ids. */
  ghost predicate Normal(orders: Orders, e: Evidence) {
    Ascending(orders.units, e.sourceIds) && Ascending(BySourceId(orders), e.sources)
  }

  // ----- the specification: contradictions and merges -----

  predicate SameCore(orders: Orders, a: Evidence, b: Evidence) {
    orders.stable(CoreJson(a)) == orders.stable(CoreJson(b))
  }

  predicate SameSource(orders: Orders, s: Source, t: Source) {
    orders.stable(SourceJson(s)) == orders.stable(SourceJson(t))
  }

  ghost predicate Disagree(orders: Orders, a: Evidence, b: Evidence) {
    exists s, t :: s in a.sources && t in b.sources && s.sourceId == t.sourceId && !SameSource(orders, s, t)
  }

  /** Two items differ in their core or describe a shared source differently. */
  ghost predicate Clash(orders: Orders, a: Evidence, b: Evidence) {
    !SameCore(orders, a, b) || Disagree(orders, a, b)
  }

  ghost predicate Conflicting(orders: Orders, input: seq<Evidence>, id: string) {
    exists a, b :: a in input && b in input && a.observationId == id && b.observationId == id && Clash(orders, a, b)
  }

  predicate Occurs(input: seq<Evidence>, id: string) {
    exists i | 0 <= i < |input| :: input[i].observationId == id
  }

  ghost predicate ListsId(input: seq<Evidence>, id: string, x: string) {
    exists a :: a in input && a.observationId == id && x in a.sourceIds
  }

  ghost predicate ListsSource(input: seq<Evidence>, id: string, s: Source) {
    exists a :: a in input && a.observationId == id && s in a.sources
  }

  ghost predicate Names(sources: seq<Source>, sourceId: string) {
    exists t :: t in sources && t.sourceId == sourceId
  }

  ghost predicate HasCore(input: seq<Evidence>, core: (string, string, seq<Entry>)) {
    exists a :: a in input && Core(a) == core
  }

  /** e has the core of one of the items with its id, and exactly their sources, in order. */
  ghost predicate Merged(orders: Orders, input: seq<Evidence>, e: Evidence) {
    && Normal(orders, e)
    && HasCore(input, Core(e))
    && (forall x :: x in e.sourceIds <==> ListsId(input, e.observationId, x))
    && (forall s :: s in e.sources ==> ListsSource(input, e.observationId, s))
    && (forall s :: ListsSource(input, e.observationId, s) ==> Names(e.sources, s.sourceId))
  }

  function Core(e: Evidence): (string, string, seq<Entry>) {
    (e.observationId, e.providerId, e.rest)
  }

  /** What de-duplication promises about its result. */
  ghost predicate Deduplicated(orders: Orders, input: seq<Evidence>, evidence: seq<Evidence>, conflictingIds: seq<string>) {
    && Ascending(orders.units, conflictingIds)
    && (forall id :: id in conflictingIds <==> Conflicting(orders, input, id))
    && Ascending(ByProvider(orders), evidence)
    && (forall e :: e in evidence ==> Kept(orders, input, e))
    && (forall id :: Occurs(input, id) && !Conflicting(orders, input, id) ==> Occurs(evidence, id))
    && DistinctItems(evidence)
  }

  ghost predicate Kept(orders: Orders, input: seq<Evidence>, e: Evidence) {
    Merged(orders, input, e) && !Conflicting(orders, input, e.observationId)
  }

  /** No two items of a list have the same id. */
  ghost predicate DistinctItems(evidence: seq<Evidence>) {
    forall j | 0 <= j < |evidence| :: NewItem(evidence, j)
  }

  ghost predicate NewItem(evidence: seq<Evidence>, j: nat)
    requires j < |evidence|
  {
    forall i | 0 <= i < j :: evidence[i].observationId != evidence[j].observationId
  }

  // ----- merging two items -----

  lemma LocaleOrdersSources(orders: Orders, sources: seq<Source>)
    requires TotalOrders(orders) && DistinctIds(sources)
    ensures Ascending(BySourceId(orders), Sort(BySourceId(orders), sources))
  {
    var less := BySourceId(orders);
    StrictSourceOrder(orders);
    forall i, j | 0 <= i < j < |sources| ensures less(sources[i], sources[j]) || less(sources[j], sources[i]) {
      assert NewId(sources, j);
    }
    SortAscends(less, sources);
  }

  lemma StrictSourceOrder(orders: Orders)
    requires TotalOrders(orders)
    ensures StrictOrder(BySourceId(orders))
  {
    var less := BySourceId(orders);
    forall x ensures !less(x, x) {
      assert !orders.locale(x.sourceId, x.sourceId);
    }
    forall x, y, z | less(x, y) && less(y, z) ensures less(x, z) {
      assert orders.locale(x.sourceId, y.sourceId) && orders.locale(y.sourceId, z.sourceId);
    }
  }

  /** The last source of a list with this id stands here. */
  predicate LastAt(sources: seq<Source>, k: nat, id: string) {
    k < |sources| && sources[k].sourceId == id && forall l | k < l < |sources| :: sources[l].sourceId != id
  }

  /** The source is the last one of the list with its id. */
  ghost predicate Last(sources: seq<Source>, s: Source) {
    exists k: nat :: LastAt(sources, k, s.sourceId) && sources[k] == s
  }

  /** The sources of a list by id, the last one where several have an id. */
  ghost predicate Indexed(all: seq<Source>, sources: JsMap<Source>) {
    sources.Wf() && forall id :: IndexedAt(all, sources, id)
  }

  ghost predicate IndexedAt(all: seq<Source>, sources: JsMap<Source>, id: string) {
    && (id in sources.at <==> Names(all, id))
    && (id in sources.at ==> sources.at[id].sourceId == id && Last(all, sources.at[id]))
  }

  /** Every source of the right is the same as the last one before it with its id, if there is one. */
  ghost predicate Accepts(orders: Orders, left: seq<Source>, right: seq<Source>) {
    forall j | 0 <= j < |right| :: AgreesWithLast(orders, left + right[..j], right[j])
  }

  ghost predicate AgreesWithLast(orders: Orders, earlier: seq<Source>, t: Source) {
    forall s :: Last(earlier, s) && s.sourceId == t.sourceId ==> SameSource(orders, s, t)
  }

  ghost predicate AgreeOnAll(orders: Orders, left: seq<Source>, right: seq<Source>) {
    forall s, t :: s in left && t in right && s.sourceId == t.sourceId ==> SameSource(orders, s, t)
  }

  lemma NamesMore(s: seq<Source>, x: Source, id: string)
    ensures Names(s + [x], id) <==> Names(s, id) || id == x.sourceId
  {
    assert forall t :: t in s + [x] <==> t in s || t == x;
    if Names(s, id) {
      var t :| t in s && t.sourceId == id;
      assert t in s + [x];
    }
    assert x in s + [x];
  }

  lemma OneLast(sources: seq<Source>, s: Source, t: Source)
    requires Last(sources, s) && Last(sources, t) && s.sourceId == t.sourceId
    ensures s == t
  {
    var k: nat :| LastAt(sources, k, s.sourceId) && sources[k] == s;
    var l: nat :| LastAt(sources, l, t.sourceId) && sources[l] == t;
    assert k == l;
  }

  lemma LastMore(all: seq<Source>, x: Source, s: Source)
    ensures Last(all + [x], s) <==> s == x || (Last(all, s) && s.sourceId != x.sourceId)
  {
    var more := all + [x];
    assert more[|all|] == x && forall l | 0 <= l < |all| :: more[l] == all[l];
    if s == x {
      assert LastAt(more, |all|, s.sourceId);
    }
    if Last(all, s) && s.sourceId != x.sourceId {
      var k: nat :| LastAt(all, k, s.sourceId) && all[k] == s;
      assert LastAt(more, k, s.sourceId) && more[k] == s;
    }
    if Last(more, s) && s != x {
      var k: nat :| LastAt(more, k, s.sourceId) && more[k] == s;
      assert LastAt(all, k, s.sourceId) && all[k] == s;
    }
  }

  lemma IndexMore(all: seq<Source>, sources: JsMap<Source>, x: Source)
    requires Indexed(all, sources)
    ensures Indexed(all + [x], sources.Set(x.sourceId, x))
  {
    var sources' := sources.Set(x.sourceId, x);
    forall id ensures IndexedAt(all + [x], sources', id) {
      assert IndexedAt(all, sources, id);
      NamesMore(all, x, id);
      if id in sources'.at {
        LastMore(all, x, sources'.at[id]);
      }
    }
  }

  /** Whether a source agrees with the last one before it can be read off the map. */
  lemma AgreesWithIndexed(orders: Orders, all: seq<Source>, sources: JsMap<Source>, x: Source)
    requires Indexed(all, sources)
    ensures AgreesWithLast(orders, all, x) <==> (x.sourceId in sources.at ==> SameSource(orders, sources.at[x.sourceId], x))
  {
    assert IndexedAt(all, sources, x.sourceId);
    forall s | Last(all, s) && s.sourceId == x.sourceId ensures x.sourceId in sources.at && s == sources.at[x.sourceId] {
      var k: nat :| LastAt(all, k, s.sourceId) && all[k] == s;
      assert all[k] in all;
      OneLast(all, s, sources.at[x.sourceId]);
    }
  }

  /** No two sources of a list have the same id. */
  ghost predicate DistinctIds(sources: seq<Source>) {
    forall j | 0 <= j < |sources| :: NewId(sources, j)
  }

  ghost predicate NewId(sources: seq<Source>, j: nat)
    requires j < |sources|
  {
    forall i | 0 <= i < j :: sources[i].sourceId != sources[j].sourceId
  }

  lemma AscendingIdsDiffer(orders: Orders, sources: seq<Source>)
    requires TotalOrders(orders) && Ascending(BySourceId(orders), sources)
    ensures DistinctIds(sources)
  {
    forall j | 0 <= j < |sources| ensures NewId(sources, j) {
      assert Above(BySourceId(orders), sources, j);
      assert !orders.locale(sources[j].sourceId, sources[j].sourceId);
    }
  }

  /** Where ids differ, an id names one source. */
  lemma OneSourcePerId(sources: seq<Source>, s: Source, t: Source)
    requires DistinctIds(sources) && s in sources && t in sources && s.sourceId == t.sourceId
    ensures s == t
  {
    var i :| 0 <= i < |sources| && sources[i] == s;
    var j :| 0 <= j < |sources| && sources[j] == t;
    assert NewId(sources, i) && NewId(sources, j);
  }

  lemma LastIsMember(sources: seq<Source>, s: Source)
    ensures Last(sources, s) ==> s in sources
    ensures DistinctIds(sources) && s in sources ==> Last(sources, s)
  {
    if DistinctIds(sources) && s in sources {
      var k :| 0 <= k < |sources| && sources[k] == s;
      forall l | k < l < |sources| ensures sources[l].sourceId != s.sourceId {
        assert NewId(sources, l);
      }
      assert LastAt(sources, k, s.sourceId);
    }
  }

  lemma {:induction false} LastOfBoth(left: seq<Source>, right: seq<Source>, s: Source)
    ensures Last(left + right, s) <==> Last(right, s) || (Last(left, s) && !Names(right, s.sourceId))
  {
    if right == [] {
      assert left + right == left;
    } else {
      var first, x := right[..|right| - 1], right[|right| - 1];
      assert right == first + [x] && left + right == (left + first) + [x];
      LastOfBoth(left, first, s);
      LastMore(left + first, x, s);
      LastMore(first, x, s);
      NamesMore(first, x, s.sourceId);
    }
  }

  /** What merging compares: the sources of the right with each other, and with those of the left
      that are the last ones with their id. */
  lemma {:induction false} AcceptsMeans(orders: Orders, left: seq<Source>, right: seq<Source>)
    ensures Accepts(orders, left, right) <==>
            forall s: Source, t: Source :: t in right && s.sourceId == t.sourceId && (s in right || Last(left, s)) ==> SameSource(orders, s, t)
  {
    if right != [] {
      var first, x := right[..|right| - 1], right[|right| - 1];
      assert right == first + [x];
      AcceptsMeans(orders, left, first);
      AcceptsMore(orders, left, first, x);
      if Accepts(orders, left, first) && AgreesWithLast(orders, left + first, x) {
        forall s: Source, t: Source | t in right && s.sourceId == t.sourceId && (s in right || Last(left, s)) ensures SameSource(orders, s, t) {
          if s == x || t == x {
            LastAgrees(orders, left, first, x, if s == x then t else s);
          }
        }
      }
      if forall s: Source, t: Source :: t in right && s.sourceId == t.sourceId && (s in right || Last(left, s)) ==> SameSource(orders, s, t) {
        forall s | Last(left + first, s) && s.sourceId == x.sourceId ensures SameSource(orders, s, x) {
          LastOfBoth(left, first, s);
          LastIsMember(first, s);
          assert x in right;
        }
      }
    }
  }

  lemma AcceptsMore(orders: Orders, left: seq<Source>, right: seq<Source>, x: Source)
    ensures Accepts(orders, left, right + [x]) <==> Accepts(orders, left, right) && AgreesWithLast(orders, left + right, x)
  {
    var more := right + [x];
    forall j | 0 <= j < |right| ensures left + more[..j] == left + right[..j] {}
    assert more[..|right|] == right;
    if Accepts(orders, left, more) {
      assert AgreesWithLast(orders, left + more[..|right|], more[|right|]);
      forall j | 0 <= j < |right| ensures AgreesWithLast(orders, left + right[..j], right[j]) {
        assert AgreesWithLast(orders, left + more[..j], more[j]);
      }
    }
  }

  lemma AcceptsPrefix(orders: Orders, left: seq<Source>, right: seq<Source>, k: nat)
    requires k <= |right|
    ensures Accepts(orders, left, right) ==> Accepts(orders, left, right[..k])
  {
    forall j | 0 <= j < k ensures left + right[..k][..j] == left + right[..j] && right[..k][j] == right[j] {
      assert right[..k][..j] == right[..j];
    }
  }

  /** Where all agree so far, a new source that agrees with the last one with its id agrees with all. */
  lemma LastAgrees(orders: Orders, left: seq<Source>, right: seq<Source>, x: Source, s: Source)
    requires forall s: Source, t: Source :: t in right && s.sourceId == t.sourceId && (s in right || Last(left, s)) ==> SameSource(orders, s, t)
    requires AgreesWithLast(orders, left + right, x) && s.sourceId == x.sourceId && (s == x || s in right || Last(left, s))
    ensures SameSource(orders, s, x)
  {
    if s in right {
      var t := LastWithId(right, s);
      LastOfBoth(left, right, t);
    } else if s != x {
      if Names(right, x.sourceId) {
        var r :| r in right && r.sourceId == x.sourceId;
        var t := LastWithId(right, r);
        LastOfBoth(left, right, t);
      } else {
        LastOfBoth(left, right, s);
      }
    }
  }

  lemma {:induction false} LastWithId(sources: seq<Source>, s: Source) returns (t: Source)
    requires s in sources
    ensures Last(sources, t) && t in sources && t.sourceId == s.sourceId
  {
    var first, x := sources[..|sources| - 1], sources[|sources| - 1];
    assert sources == first + [x];
    if x.sourceId == s.sourceId {
      t := x;
    } else {
      t := LastWithId(first, s);
    }
    LastMore(first, x, t);
  }

  /** An item merges with a copy of itself exactly when it describes no source in two ways. */
  lemma MergesWithItself(orders: Orders, e: Evidence)
    ensures Accepts(orders, e.sources, e.sources) <==> !Disagree(orders, e, e)
  {
    AcceptsMeans(orders, e.sources, e.sources);
    forall s ensures Last(e.sources, s) ==> s in e.sources {
      LastIsMember(e.sources, s);
    }
  }

  lemma DistinctAgree(orders: Orders, left: seq<Source>, right: seq<Source>)
    requires DistinctIds(left) && DistinctIds(right)
    ensures Accepts(orders, left, right) <==> AgreeOnAll(orders, left, right)
  {
    AcceptsMeans(orders, left, right);
    forall s ensures Last(left, s) <==> s in left {
      LastIsMember(left, s);
    }
    forall s, t | s in right && t in right && s.sourceId == t.sourceId ensures s == t {
      OneSourcePerId(right, s, t);
    }
  }

  /** The sources of a list by id. */
  method IndexSources(list: seq<Source>) returns (sources: JsMap<Source>)
    ensures Indexed(list, sources)
  {
    sources := Empty();
    for k := 0 to |list|
      invariant Indexed(list[..k], sources)
    {
      assert list[..k + 1] == list[..k] + [list[k]];
      IndexMore(list[..k], sources, list[k]);
      sources := sources.Set(list[k].sourceId, list[k]);
    }
    assert list[..|list|] == list;
  }

  /** The sources of both sides by id; later ones replace earlier ones that are the same. */
  method CombineSources(orders: Orders, left: seq<Source>, right: seq<Source>) returns (r: Option<JsMap<Source>>)
    ensures r.None? <==> !Accepts(orders, left, right)
    ensures r.Some? ==> Indexed(left + right, r.value)
  {
    var sources := IndexSources(left);
    assert left + [] == left;
    for j := 0 to |right|
      invariant Indexed(left + right[..j], sources)
      invariant Accepts(orders, left, right[..j])
    {
      var source := right[j];
      assert right[..j + 1] == right[..j] + [source];
      assert left + right[..j + 1] == (left + right[..j]) + [source];
      AcceptsMore(orders, left, right[..j], source);
      AcceptsPrefix(orders, left, right, j + 1);
      AgreesWithIndexed(orders, left + right[..j], sources, source);
      if source.sourceId in sources.at && !SameSource(orders, sources.at[source.sourceId], source) {
        return None;
      }
      IndexMore(left + right[..j], sources, source);
      sources := sources.Set(source.sourceId, source);
    }
    assert right[..|right|] == right;
    return Some(sources);
  }

  /** What merging two items yields: of several sources with one id, the last one. */
  ghost predicate MergesTo(left: Evidence, right: Evidence, m: Evidence) {
    && Core(m) == Core(left)
    && (forall id :: id in m.sourceIds <==> id in left.sourceIds || id in right.sourceIds)
    && (forall s :: s in m.sources <==> Last(left.sources + right.sources, s))
  }

  lemma MergedNames(left: Evidence, right: Evidence, m: Evidence)
    requires MergesTo(left, right, m)
    ensures forall s :: s in m.sources ==> s in left.sources || s in right.sources
    ensures forall s :: s in left.sources || s in right.sources ==> Names(m.sources, s.sourceId)
  {
    var all := left.sources + right.sources;
    forall s | s in m.sources ensures s in left.sources || s in right.sources {
      LastIsMember(all, s);
    }
    forall s | s in left.sources || s in right.sources ensures Names(m.sources, s.sourceId) {
      assert s in all;
      var t := LastWithId(all, s);
    }
  }

  /** Merges, for any lists of sources: only what comes last with its id is compared with the right
      side and kept. */
  method MergeEquivalent(orders: Orders, left: Evidence, right: Evidence) returns (r: Option<Evidence>)
    requires TotalOrders(orders)
    ensures r.None? <==> !SameCore(orders, left, right) || !Accepts(orders, left.sources, right.sources)
    ensures r.Some? ==> Normal(orders, r.value) && MergesTo(left, right, r.value)
    ensures DistinctIds(left.sources) && DistinctIds(right.sources) ==> (r.None? <==> Clash(orders, left, right))
  {
    if DistinctIds(left.sources) && DistinctIds(right.sources) {
      DisagreeSomewhere(orders, left, right);
      DistinctAgree(orders, left.sources, right.sources);
    }
    if !SameCore(orders, left, right) {
      return None;
    }
    var sources := CombineSources(orders, left.sources, right.sources);
    if sources.None? {
      return None;
    }
    var ids := Unique(left.sourceIds + right.sourceIds);
    var values := sources.value.Values();
    MergeIsRight(orders, left, right, ids, sources.value, values);
    return Some(left.(sourceIds := Sort(orders.units, ids), sources := Sort(BySourceId(orders), values)));
  }

  lemma DisagreeSomewhere(orders: Orders, left: Evidence, right: Evidence)
    ensures Disagree(orders, left, right) <==> !AgreeOnAll(orders, left.sources, right.sources)
  {
  }

  lemma MergeIsRight(orders: Orders, left: Evidence, right: Evidence, ids: seq<string>, sources: JsMap<Source>, values: seq<Source>)
    requires TotalOrders(orders) && NoRepeats(ids)
    requires forall id :: id in ids <==> id in left.sourceIds || id in right.sourceIds
    requires Indexed(left.sources + right.sources, sources) && values == sources.Values()
    ensures var m := left.(sourceIds := Sort(orders.units, ids), sources := Sort(BySourceId(orders), values));
            Normal(orders, m) && MergesTo(left, right, m)
  {
    ValuesAreSources(left.sources + right.sources, sources, values);
    LocaleOrdersSources(orders, values);
    NoRepeatsTotal(orders.units, ids);
    SortAscends(orders.units, ids);
  }

  lemma NoRepeatsTotal(units: Collation, ids: seq<string>)
    requires Total(units) && NoRepeats(ids)
    ensures TotalOn(units, ids)
  {
    forall i, j | 0 <= i < j < |ids| ensures units(ids[i], ids[j]) || units(ids[j], ids[i]) {
      assert NewAt(ids, j) && ids[..j][i] == ids[i];
    }
  }

  lemma ValuesAreSources(all: seq<Source>, sources: JsMap<Source>, values: seq<Source>)
    requires Indexed(all, sources) && values == sources.Values()
    ensures DistinctIds(values)
    ensures forall s :: s in values <==> Last(all, s)
  {
    forall i | 0 <= i < |values| ensures values[i].sourceId == sources.order[i] && Last(all, values[i]) {
      assert sources.order[i] in sources.order && IndexedAt(all, sources, sources.order[i]);
    }
    forall j | 0 <= j < |values| ensures NewId(values, j) {
      assert NewAt(sources.order, j);
      assert forall i | 0 <= i < j :: sources.order[..j][i] == sources.order[i];
    }
    forall s | Last(all, s) ensures s in values {
      LastIsMember(all, s);
      assert Names(all, s.sourceId) && IndexedAt(all, sources, s.sourceId);
      OneLast(all, s, sources.at[s.sourceId]);
      var i :| 0 <= i < |sources.order| && sources.order[i] == s.sourceId;
      assert values[i] == s;
    }
  }

  // ----- de-duplication -----

  /** What has been kept and rejected after the items of `done`. */
  ghost predicate Tracks(orders: Orders, done: seq<Evidence>, byId: JsMap<Evidence>, conflicts: seq<string>) {
    && byId.Wf() && NoRepeats(conflicts)
    && forall id :: TracksId(orders, done, byId, conflicts, id)
  }

  ghost predicate TracksId(orders: Orders, done: seq<Evidence>, byId: JsMap<Evidence>, conflicts: seq<string>, id: string) {
    && (id in conflicts <==> Conflicting(orders, done, id))
    && (id in byId.at <==> Occurs(done, id) && !Conflicting(orders, done, id))
    && (id in byId.at ==> byId.at[id].observationId == id && Merged(orders, done, byId.at[id]))
  }

  lemma OccursMore(done: seq<Evidence>, item: Evidence, id: string)
    ensures Occurs(done + [item], id) <==> Occurs(done, id) || item.observationId == id
  {
    var all := done + [item];
    if Occurs(done, id) {
      var i :| 0 <= i < |done| && done[i].observationId == id;
      assert all[i].observationId == id;
    }
    if item.observationId == id {
      assert all[|done|].observationId == id;
    }
  }

  lemma ConflictingStays(orders: Orders, done: seq<Evidence>, item: Evidence, id: string)
    requires Conflicting(orders, done, id)
    ensures Conflicting(orders, done + [item], id)
  {
    var a, b :| a in done && b in done && a.observationId == id && b.observationId == id && Clash(orders, a, b);
    assert a in done + [item] && b in done + [item];
  }

  lemma ConflictingElsewhere(orders: Orders, done: seq<Evidence>, item: Evidence, id: string)
    requires id != item.observationId
    ensures Conflicting(orders, done + [item], id) <==> Conflicting(orders, done, id)
  {
    if Conflicting(orders, done, id) {
      ConflictingStays(orders, done, item, id);
    }
  }

  lemma ClashSymmetric(orders: Orders, a: Evidence, b: Evidence)
    ensures Clash(orders, a, b) <==> Clash(orders, b, a)
  {
    assert Disagree(orders, a, b) ==> Disagree(orders, b, a);
    assert Disagree(orders, b, a) ==> Disagree(orders, a, b);
  }

  lemma NoClashWithItself(orders: Orders, a: Evidence)
    requires TotalOrders(orders) && Normal(orders, a)
    ensures !Clash(orders, a, a)
  {
    if Disagree(orders, a, a) {
      var s, t :| s in a.sources && t in a.sources && s.sourceId == t.sourceId && !SameSource(orders, s, t);
      AscendingIdsDiffer(orders, a.sources);
      OneSourcePerId(a.sources, s, t);
    }
  }

  ghost predicate ClashesWithin(orders: Orders, done: seq<Evidence>, item: Evidence) {
    exists a :: a in done && a.observationId == item.observationId && Clash(orders, a, item)
  }

  /** A merged item clashes with another exactly when one of the items behind it does. */
  lemma MergedClashes(orders: Orders, done: seq<Evidence>, prior: Evidence, item: Evidence)
    requires Merged(orders, done, prior) && !Conflicting(orders, done, prior.observationId)
    requires item.observationId == prior.observationId
    ensures Clash(orders, prior, item) <==> ClashesWithin(orders, done, item)
  {
    var first :| first in done && Core(first) == Core(prior);
    assert CoreJson(first) == CoreJson(prior);
    if ClashesWithin(orders, done, item) {
      var a :| a in done && a.observationId == item.observationId && Clash(orders, a, item);
      assert !Clash(orders, a, first);
      if Disagree(orders, a, item) {
        DisagreesAbove(orders, done, prior, a, item);
      }
    }
    if Disagree(orders, prior, item) {
      var p, t :| p in prior.sources && t in item.sources && p.sourceId == t.sourceId && !SameSource(orders, p, t);
      assert ListsSource(done, prior.observationId, p);
      var b :| b in done && b.observationId == prior.observationId && p in b.sources;
      assert Disagree(orders, b, item);
      assert Clash(orders, b, item);
    }
    if !SameCore(orders, prior, item) {
      assert Clash(orders, first, item);
    }
  }

  /** What an item behind the merged one disagrees about, the merged one disagrees about too. */
  lemma DisagreesAbove(orders: Orders, done: seq<Evidence>, prior: Evidence, a: Evidence, item: Evidence)
    requires Merged(orders, done, prior) && !Conflicting(orders, done, prior.observationId)
    requires a in done && a.observationId == prior.observationId && Disagree(orders, a, item)
    ensures Disagree(orders, prior, item)
  {
    var s, t :| s in a.sources && t in item.sources && s.sourceId == t.sourceId && !SameSource(orders, s, t);
    assert ListsSource(done, prior.observationId, s);
    var p :| p in prior.sources && p.sourceId == s.sourceId;
    assert ListsSource(done, prior.observationId, p);
    var b :| b in done && b.observationId == prior.observationId && p in b.sources;
    assert !Clash(orders, b, a) by {
      NotConflicting(orders, done, prior.observationId, b, a);
    }
    Agreement(orders, b, a, p, s);
    Differs(orders, p, s, t);
    Disagreement(orders, prior, item, p, t);
  }

  lemma NotConflicting(orders: Orders, done: seq<Evidence>, id: string, b: Evidence, a: Evidence)
    requires !Conflicting(orders, done, id) && a in done && b in done && a.observationId == id && b.observationId == id
    ensures !Clash(orders, b, a)
  {
  }

  lemma Agreement(orders: Orders, b: Evidence, a: Evidence, p: Source, s: Source)
    requires !Clash(orders, b, a) && p in b.sources && s in a.sources && p.sourceId == s.sourceId
    ensures SameSource(orders, p, s)
  {
  }

  lemma Differs(orders: Orders, p: Source, s: Source, t: Source)
    requires SameSource(orders, p, s) && !SameSource(orders, s, t)
    ensures !SameSource(orders, p, t)
  {
  }

  lemma Disagreement(orders: Orders, prior: Evidence, item: Evidence, p: Source, t: Source)
    requires p in prior.sources && t in item.sources && p.sourceId == t.sourceId && !SameSource(orders, p, t)
    ensures Disagree(orders, prior, item)
  {
  }

  /** After one more item, its id conflicts if it did or if the item clashes with an earlier one. */
  lemma ConflictingMore(orders: Orders, done: seq<Evidence>, item: Evidence)
    requires TotalOrders(orders) && Normal(orders, item)
    ensures Conflicting(orders, done + [item], item.observationId) <==>
            || Conflicting(orders, done, item.observationId)
            || ClashesWithin(orders, done, item)
  {
    var all, id := done + [item], item.observationId;
    NoClashWithItself(orders, item);
    if Conflicting(orders, all, id) {
      var a, b :| a in all && b in all && a.observationId == id && b.observationId == id && Clash(orders, a, b);
      if a in done && b in done {
      } else if a in done {
        assert b == item;
      } else {
        assert a == item;
        ClashSymmetric(orders, a, b);
      }
    }
    if Conflicting(orders, done, id) {
      ConflictingStays(orders, done, item, id);
    }
    if ClashesWithin(orders, done, item) {
      var a :| a in done && a.observationId == id && Clash(orders, a, item);
      assert a in all && item in all;
    }
  }

  lemma ListsMore(done: seq<Evidence>, item: Evidence, id: string)
    ensures forall x :: ListsId(done + [item], id, x) <==> ListsId(done, id, x) || (item.observationId == id && x in item.sourceIds)
    ensures forall s :: ListsSource(done + [item], id, s) <==> ListsSource(done, id, s) || (item.observationId == id && s in item.sources)
    ensures forall core :: HasCore(done, core) ==> HasCore(done + [item], core)
  {
    var all := done + [item];
    assert item in all;
    assert forall a :: a in all <==> a in done || a == item;
  }

  lemma MergedElsewhere(orders: Orders, done: seq<Evidence>, item: Evidence, e: Evidence)
    requires Merged(orders, done, e) && e.observationId != item.observationId
    ensures Merged(orders, done + [item], e)
  {
    ListsMore(done, item, e.observationId);
  }

  lemma MergedAlone(orders: Orders, done: seq<Evidence>, item: Evidence)
    requires Normal(orders, item) && !Occurs(done, item.observationId)
    ensures Merged(orders, done + [item], item)
  {
    ListsMore(done, item, item.observationId);
    assert forall a | a in done :: a.observationId != item.observationId;
    assert item in done + [item];
  }

  lemma MergedMore(orders: Orders, done: seq<Evidence>, item: Evidence, prior: Evidence, m: Evidence)
    requires Merged(orders, done, prior) && item.observationId == prior.observationId
    requires Normal(orders, m) && MergesTo(prior, item, m)
    ensures Merged(orders, done + [item], m)
  {
    assert m.observationId == Core(m).0 == prior.observationId;
    MergedNames(prior, item, m);
    ListsMore(done, item, m.observationId);
    forall s | ListsSource(done + [item], m.observationId, s) ensures Names(m.sources, s.sourceId) {
      if ListsSource(done, m.observationId, s) {
        var p :| p in prior.sources && p.sourceId == s.sourceId;
        assert Names(m.sources, p.sourceId);
      }
    }
  }

  /** An item whose id conflicts already changes nothing. */
  lemma SkipConflicting(orders: Orders, done: seq<Evidence>, item: Evidence, byId: JsMap<Evidence>, conflicts: seq<string>)
    requires TotalOrders(orders) && Normal(orders, item) && Tracks(orders, done, byId, conflicts)
    requires item.observationId in conflicts
    ensures Tracks(orders, done + [item], byId, conflicts)
  {
    assert TracksId(orders, done, byId, conflicts, item.observationId);
    ConflictingMore(orders, done, item);
    KeepTracking(orders, done, item, byId, conflicts, byId, conflicts);
  }

  /** An item with a new id is kept. */
  lemma KeepNew(orders: Orders, done: seq<Evidence>, item: Evidence, byId: JsMap<Evidence>, conflicts: seq<string>)
    requires TotalOrders(orders) && Normal(orders, item) && Tracks(orders, done, byId, conflicts)
    requires item.observationId !in conflicts && item.observationId !in byId.at
    ensures Tracks(orders, done + [item], byId.Set(item.observationId, item), conflicts)
  {
    assert TracksId(orders, done, byId, conflicts, item.observationId);
    ConflictingMore(orders, done, item);
    NoOneClashes(orders, done, item);
    MergedAlone(orders, done, item);
    KeepTracking(orders, done, item, byId, conflicts, byId.Set(item.observationId, item), conflicts);
  }

  lemma NoOneClashes(orders: Orders, done: seq<Evidence>, item: Evidence)
    requires !Occurs(done, item.observationId)
    ensures !ClashesWithin(orders, done, item)
  {
  }

  /** An item that merges with the one kept for its id replaces it. */
  lemma KeepMerged(orders: Orders, done: seq<Evidence>, item: Evidence, byId: JsMap<Evidence>, conflicts: seq<string>, merged: Evidence)
    requires TotalOrders(orders) && Normal(orders, item) && Tracks(orders, done, byId, conflicts)
    requires item.observationId !in conflicts && item.observationId in byId.at
    requires !Clash(orders, byId.at[item.observationId], item)
    requires Normal(orders, merged) && MergesTo(byId.at[item.observationId], item, merged)
    ensures Tracks(orders, done + [item], byId.Set(item.observationId, merged), conflicts)
  {
    var id, prior := item.observationId, byId.at[item.observationId];
    assert TracksId(orders, done, byId, conflicts, id);
    ConflictingMore(orders, done, item);
    MergedClashes(orders, done, prior, item);
    MergedMore(orders, done, item, prior, merged);
    assert merged.observationId == Core(merged).0 == id;
    KeepTracking(orders, done, item, byId, conflicts, byId.Set(id, merged), conflicts);
  }

  /** An item that clashes with the one kept for its id discredits the id. */
  lemma DropClashing(orders: Orders, done: seq<Evidence>, item: Evidence, byId: JsMap<Evidence>, conflicts: seq<string>)
    requires TotalOrders(orders) && Normal(orders, item) && Tracks(orders, done, byId, conflicts)
    requires item.observationId !in conflicts && item.observationId in byId.at
    requires Clash(orders, byId.at[item.observationId], item)
    ensures Tracks(orders, done + [item], byId.Delete(item.observationId), conflicts + [item.observationId])
  {
    var id := item.observationId;
    assert TracksId(orders, done, byId, conflicts, id);
    ConflictingMore(orders, done, item);
    MergedClashes(orders, done, byId.at[id], item);
    NoRepeatsMore(conflicts, id);
    KeepTracking(orders, done, item, byId, conflicts, byId.Delete(id), conflicts + [id]);
  }

  /** Every id is kept or rejected, not both; both results are sorted. */
  ghost predicate Sorted(orders: Orders, input: seq<Evidence>, evidence: seq<Evidence>, conflictingIds: seq<string>) {
    && Ascending(orders.units, conflictingIds) && Ascending(ByProvider(orders), evidence) && DistinctItems(evidence)
    && forall id :: SortedAt(input, evidence, conflictingIds, id)
  }

  ghost predicate SortedAt(input: seq<Evidence>, evidence: seq<Evidence>, conflictingIds: seq<string>, id: string) {
    && (Occurs(input, id) <==> Occurs(evidence, id) || id in conflictingIds)
    && !(Occurs(evidence, id) && id in conflictingIds)
  }

  /** De-duplication of a list of evidence. */
  method DeduplicateCanonicalEvidence(orders: Orders, input: seq<Evidence>)
    returns (evidence: seq<Evidence>, conflictingIds: seq<string>)
    requires TotalOrders(orders)
    ensures Sorted(orders, input, evidence, conflictingIds)
    ensures (forall e | e in input :: Normal(orders, e)) ==> Deduplicated(orders, input, evidence, conflictingIds)
  {
    var byId: JsMap<Evidence> := Empty();
    var conflicts: seq<string> := [];
    ghost var normal := forall e | e in input :: Normal(orders, e);
    NothingTracked(orders, byId);
    for k := 0 to |input|
      invariant Sorts(input[..k], byId, conflicts)
      invariant normal ==> Tracks(orders, input[..k], byId, conflicts)
    {
      var item := input[k];
      var id := item.observationId;
      ghost var done := input[..k];
      assert item in input && input[..k + 1] == done + [item] && SortsAt(done, byId, conflicts, id);
      if id in conflicts {
        SortsMore(done, item, byId, conflicts, byId, conflicts);
        if normal {
          SkipConflicting(orders, done, item, byId, conflicts);
        }
        continue;
      }
      if id !in byId.at {
        SortsMore(done, item, byId, conflicts, byId.Set(id, item), conflicts);
        if normal {
          KeepNew(orders, done, item, byId, conflicts);
        }
        byId := byId.Set(id, item);
        continue;
      }
      var prior := byId.at[id];
      if normal {
        KeptIsNormal(orders, done, byId, conflicts, id);
        AscendingIdsDiffer(orders, prior.sources);
        AscendingIdsDiffer(orders, item.sources);
      }
      var merged := MergeEquivalent(orders, prior, item);
      if merged.Some? {
        assert merged.value.observationId == Core(merged.value).0 == id;
        SortsMore(done, item, byId, conflicts, byId.Set(id, merged.value), conflicts);
        if normal {
          KeepMerged(orders, done, item, byId, conflicts, merged.value);
        }
        byId := byId.Set(id, merged.value);
      } else {
        NoRepeatsMore(conflicts, id);
        SortsMore(done, item, byId, conflicts, byId.Delete(id), conflicts + [id]);
        if normal {
          DropClashing(orders, done, item, byId, conflicts);
        }
        byId := byId.Delete(id);
        conflicts := conflicts + [id];
      }
    }
    assert input[..|input|] == input;
    var values := byId.Values();
    evidence := Sort(ByProvider(orders), values);
    conflictingIds := Sort(orders.units, conflicts);
    SortsFinish(orders, input, byId, conflicts, values);
    if normal {
      Finish(orders, input, byId, conflicts, values);
    }
  }

  /** Of the ids of `done`, each is kept or rejected, not both. */
  ghost predicate Sorts(done: seq<Evidence>, byId: JsMap<Evidence>, conflicts: seq<string>) {
    byId.Wf() && NoRepeats(conflicts) && forall id :: SortsAt(done, byId, conflicts, id)
  }

  ghost predicate SortsAt(done: seq<Evidence>, byId: JsMap<Evidence>, conflicts: seq<string>, id: string) {
    && (Occurs(done, id) <==> id in byId.at || id in conflicts) && !(id in byId.at && id in conflicts)
    && (id in byId.at ==> byId.at[id].observationId == id)
  }

  lemma SortsMore(done: seq<Evidence>, item: Evidence, byId: JsMap<Evidence>, conflicts: seq<string>,
                  byId': JsMap<Evidence>, conflicts': seq<string>)
    requires Sorts(done, byId, conflicts) && byId'.Wf() && NoRepeats(conflicts')
    requires forall id | id != item.observationId ::
               && (id in conflicts' <==> id in conflicts) && (id in byId'.at <==> id in byId.at)
               && (id in byId.at ==> byId'.at[id] == byId.at[id])
    requires (item.observationId in byId'.at) != (item.observationId in conflicts')
    requires item.observationId in byId'.at ==> byId'.at[item.observationId].observationId == item.observationId
    ensures Sorts(done + [item], byId', conflicts')
  {
    forall id ensures SortsAt(done + [item], byId', conflicts', id) {
      assert SortsAt(done, byId, conflicts, id);
      OccursMore(done, item, id);
    }
  }

  lemma SortsFinish(orders: Orders, input: seq<Evidence>, byId: JsMap<Evidence>, conflicts: seq<string>, values: seq<Evidence>)
    requires TotalOrders(orders) && Sorts(input, byId, conflicts) && values == byId.Values()
    ensures Sorted(orders, input, Sort(ByProvider(orders), values), Sort(orders.units, conflicts))
  {
    var less := ByProvider(orders);
    var evidence := Sort(less, values);
    StrictProviderOrder(orders);
    ValuesDiffer(orders, input, byId, conflicts, values);
    SortAscends(less, values);
    NoRepeatsTotal(orders.units, conflicts);
    SortAscends(orders.units, conflicts);
    DistinctWhenSorted(less, values, evidence);
    forall id ensures SortedAt(input, evidence, Sort(orders.units, conflicts), id) {
      assert SortsAt(input, byId, conflicts, id);
      OccursInValues(input, byId, conflicts, values, id);
      OccursSorted(less, values, id);
    }
  }

  lemma OccursSorted(less: (Evidence, Evidence) -> bool, values: seq<Evidence>, id: string)
    ensures Occurs(Sort(less, values), id) <==> Occurs(values, id)
  {
    var sorted := Sort(less, values);
    if Occurs(values, id) {
      var i :| 0 <= i < |values| && values[i].observationId == id;
      assert values[i] in sorted;
    }
    if Occurs(sorted, id) {
      var i :| 0 <= i < |sorted| && sorted[i].observationId == id;
      assert sorted[i] in values;
    }
  }

  lemma ValuesDiffer(orders: Orders, input: seq<Evidence>, byId: JsMap<Evidence>, conflicts: seq<string>, values: seq<Evidence>)
    requires TotalOrders(orders) && Sorts(input, byId, conflicts) && values == byId.Values()
    ensures DistinctItems(values) && TotalOn(ByProvider(orders), values)
  {
    forall i | 0 <= i < |values| ensures values[i].observationId == byId.order[i] {
      assert byId.order[i] in byId.order && SortsAt(input, byId, conflicts, byId.order[i]);
    }
    forall i, j | 0 <= i < j < |values| ensures values[i].observationId != values[j].observationId {
      assert NewAt(byId.order, j) && byId.order[..j][i] == byId.order[i];
    }
  }

  lemma OccursInValues(input: seq<Evidence>, byId: JsMap<Evidence>, conflicts: seq<string>, values: seq<Evidence>, id: string)
    requires Sorts(input, byId, conflicts) && values == byId.Values()
    ensures Occurs(values, id) <==> id in byId.at
  {
    forall i | 0 <= i < |values| ensures values[i].observationId == byId.order[i] {
      assert byId.order[i] in byId.order && SortsAt(input, byId, conflicts, byId.order[i]);
    }
    if id in byId.at {
      assert id in byId.order;
      var i :| 0 <= i < |byId.order| && byId.order[i] == id;
      assert values[i].observationId == id;
    }
    if Occurs(values, id) {
      var i :| 0 <= i < |values| && values[i].observationId == id;
      assert byId.order[i] in byId.order;
    }
  }

  lemma NothingTracked(orders: Orders, byId: JsMap<Evidence>)
    requires byId.order == [] && byId.at == map[]
    ensures Tracks(orders, [], byId, [])
  {
  }

  lemma KeptIsNormal(orders: Orders, done: seq<Evidence>, byId: JsMap<Evidence>, conflicts: seq<string>, id: string)
    requires Tracks(orders, done, byId, conflicts) && id in byId.at
    ensures Normal(orders, byId.at[id])
  {
    assert TracksId(orders, done, byId, conflicts, id);
  }

  /** One more item changes what is kept and rejected for its own id only. */
  lemma KeepTracking(orders: Orders, done: seq<Evidence>, item: Evidence,
                     byId: JsMap<Evidence>, conflicts: seq<string>, byId': JsMap<Evidence>, conflicts': seq<string>)
    requires Tracks(orders, done, byId, conflicts)
    requires byId'.Wf() && NoRepeats(conflicts')
    requires forall id | id != item.observationId ::
               && (id in conflicts' <==> id in conflicts) && (id in byId'.at <==> id in byId.at)
               && (id in byId.at ==> byId'.at[id] == byId.at[id])
    requires item.observationId in conflicts' <==> Conflicting(orders, done + [item], item.observationId)
    requires item.observationId in byId'.at <==> !Conflicting(orders, done + [item], item.observationId)
    requires item.observationId in byId'.at ==>
               && byId'.at[item.observationId].observationId == item.observationId
               && Merged(orders, done + [item], byId'.at[item.observationId])
    ensures Tracks(orders, done + [item], byId', conflicts')
  {
    forall id ensures TracksId(orders, done + [item], byId', conflicts', id) {
      OccursMore(done, item, id);
      if id != item.observationId {
        assert TracksId(orders, done, byId, conflicts, id);
        ConflictingElsewhere(orders, done, item, id);
        if id in byId.at {
          MergedElsewhere(orders, done, item, byId.at[id]);
        }
      }
    }
  }

  lemma StrictProviderOrder(orders: Orders)
    requires TotalOrders(orders)
    ensures StrictOrder(ByProvider(orders))
  {
    var less := ByProvider(orders);
    forall x ensures !less(x, x) {
      assert !orders.locale(x.providerId, x.providerId) && !orders.locale(x.observationId, x.observationId);
    }
    forall x, y, z | less(x, y) && less(y, z) ensures less(x, z) {
      if orders.locale(x.providerId, y.providerId) && orders.locale(y.providerId, z.providerId) {
        assert orders.locale(x.providerId, z.providerId);
      } else if x.providerId == y.providerId && y.providerId == z.providerId {
        assert orders.locale(x.observationId, z.observationId);
      }
    }
  }

  lemma Finish(orders: Orders, input: seq<Evidence>, byId: JsMap<Evidence>, conflicts: seq<string>, values: seq<Evidence>)
    requires TotalOrders(orders) && Tracks(orders, input, byId, conflicts) && values == byId.Values()
    ensures Deduplicated(orders, input, Sort(ByProvider(orders), values), Sort(orders.units, conflicts))
  {
    var less := ByProvider(orders);
    var evidence := Sort(less, values);
    StrictProviderOrder(orders);
    KeptOnce(orders, input, byId, conflicts, values);
    SortAscends(less, values);
    NoRepeatsTotal(orders.units, conflicts);
    SortAscends(orders.units, conflicts);
    forall id ensures id in conflicts <==> Conflicting(orders, input, id) {
      assert TracksId(orders, input, byId, conflicts, id);
    }
    forall id | Occurs(values, id) ensures Occurs(evidence, id) {
      var i :| 0 <= i < |values| && values[i].observationId == id;
      assert values[i] in evidence;
    }
    DistinctWhenSorted(less, values, evidence);
  }

  lemma KeptOnce(orders: Orders, input: seq<Evidence>, byId: JsMap<Evidence>, conflicts: seq<string>, values: seq<Evidence>)
    requires TotalOrders(orders) && Tracks(orders, input, byId, conflicts) && values == byId.Values()
    ensures DistinctItems(values)
    ensures TotalOn(ByProvider(orders), values)
    ensures forall e :: e in values ==> Kept(orders, input, e)
    ensures forall id :: Occurs(input, id) && !Conflicting(orders, input, id) ==> Occurs(values, id)
  {
    forall i | 0 <= i < |values| ensures values[i].observationId == byId.order[i] && Kept(orders, input, values[i]) {
      assert byId.order[i] in byId.order;
      assert TracksId(orders, input, byId, conflicts, byId.order[i]);
    }
    forall i, j | 0 <= i < j < |values| ensures values[i].observationId != values[j].observationId {
      assert NewAt(byId.order, j) && byId.order[..j][i] == byId.order[i];
    }
    forall id | Occurs(input, id) && !Conflicting(orders, input, id) ensures Occurs(values, id) {
      assert TracksId(orders, input, byId, conflicts, id);
      assert id in byId.order;
      var i :| 0 <= i < |byId.order| && byId.order[i] == id;
      assert values[i].observationId == id;
    }
  }

  lemma DistinctWhenSorted(less: (Evidence, Evidence) -> bool, values: seq<Evidence>, evidence: seq<Evidence>)
    requires Ascending(less, evidence) && StrictOrder(less) && DistinctItems(values)
    requires forall e :: e in evidence ==> e in values
    ensures DistinctItems(evidence)
  {
    forall i, j | 0 <= i < j < |evidence| ensures evidence[i].observationId != evidence[j].observationId {
      Rises(less, evidence, i, j);
      if evidence[i].observationId == evidence[j].observationId {
        OneItemPerId(values, evidence[i], evidence[j]);
      }
    }
  }

  lemma OneItemPerId(evidence: seq<Evidence>, a: Evidence, b: Evidence)
    requires DistinctItems(evidence) && a in evidence && b in evidence && a.observationId == b.observationId
    ensures a == b
  {
    var i :| 0 <= i < |evidence| && evidence[i] == a;
    var j :| 0 <= j < |evidence| && evidence[j] == b;
    assert NewItem(evidence, i) && NewItem(evidence, j);
  }
}
