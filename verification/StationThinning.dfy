/** Thinning stations to the best one of every map cell: the ranking, the selection, and the
    columns of the map grid. */
module StationThinning {
  import opened Basics
  import opened CanonicalJson
  import opened JsCollections

  // ----- comparing tuples -----

  /** What a tuple holds at an index; beyond its end that is undefined. */
  datatype Value = Number(n: int) | Text(s: string) | Undefined

  type Tuple = seq<Value>

  /** `localeCompare`, and how JavaScript spells a value. */
  datatype Locale = Locale(lt: Collation, spelled: Value -> string)

  function Entry(t: Tuple, k: nat): Value {
    if k < |t| then t[k] else Undefined
  }

  function LocaleCompare(lt: Collation, a: string, b: string): int {
    if lt(a, b) then -1 else if lt(b, a) then 1 else 0
  }

  function TextOf(locale: Locale, v: Value): string {
    if v.Text? then v.s else locale.spelled(v)
  }

  function CompareValues(locale: Locale, a: Value, b: Value): int {
    if a.Number? && b.Number? then a.n - b.n else LocaleCompare(locale.lt, TextOf(locale, a), TextOf(locale, b))
  }

  function Longer(left: Tuple, right: Tuple): nat {
    if |left| > |right| then |left| else |right|
  }

  /** The sign of the first difference from an index on. */
  function CompareFrom(locale: Locale, left: Tuple, right: Tuple, k: nat): int
    decreases Longer(left, right) - k
  {
    if k >= Longer(left, right) then 0
    else if Entry(left, k) == Entry(right, k) then CompareFrom(locale, left, right, k + 1)
    else CompareValues(locale, Entry(left, k), Entry(right, k))
  }

  method CompareTuple(locale: Locale, left: Tuple, right: Tuple) returns (r: int)
    ensures r == CompareFrom(locale, left, right, 0)
  {
    var index := 0;
    while index < Longer(left, right)
      invariant CompareFrom(locale, left, right, index) == CompareFrom(locale, left, right, 0)
    {
      var a, b := Entry(left, index), Entry(right, index);
      if a != b {
        return CompareValues(locale, a, b);
      }
      index := index + 1;
    }
    return 0;
  }

  /** Tuples of one shape hold numbers at the same indices, and text at the others. */
  predicate SameShape(left: Tuple, right: Tuple) {
    && |left| == |right|
    && forall k | 0 <= k < |left| :: !left[k].Undefined? && !right[k].Undefined? && left[k].Number? == right[k].Number?
  }

  lemma ValuesAreOrdered(locale: Locale, a: Value, b: Value, c: Value)
    requires Total(locale.lt) && !a.Undefined? && !b.Undefined? && !c.Undefined?
    requires a.Number? == b.Number? == c.Number?
    ensures CompareValues(locale, a, b) == 0 <==> a == b
    ensures CompareValues(locale, a, b) < 0 <==> CompareValues(locale, b, a) > 0
    ensures CompareValues(locale, a, b) < 0 && CompareValues(locale, b, c) < 0 ==> CompareValues(locale, a, c) < 0
  {
    if a.Text? {
      assert !locale.lt(a.s, a.s);
      assert !(locale.lt(a.s, b.s) && locale.lt(b.s, a.s));
    }
  }

  lemma {:induction false} Antisymmetric(locale: Locale, left: Tuple, right: Tuple, k: nat)
    requires Total(locale.lt) && SameShape(left, right) && k <= |left|
    ensures CompareFrom(locale, left, right, k) < 0 <==> CompareFrom(locale, right, left, k) > 0
    ensures CompareFrom(locale, left, right, k) == 0 <==> left[k..] == right[k..]
    decreases |left| - k
  {
    if k < |left| {
      Antisymmetric(locale, left, right, k + 1);
      ValuesAreOrdered(locale, left[k], right[k], left[k]);
      assert left[k..] == [left[k]] + left[k + 1..];
      assert right[k..] == [right[k]] + right[k + 1..];
    }
  }

  lemma {:induction false} Transitive(locale: Locale, s: Tuple, t: Tuple, u: Tuple, k: nat)
    requires Total(locale.lt) && SameShape(s, t) && SameShape(t, u) && k <= |s|
    requires CompareFrom(locale, s, t, k) < 0 && CompareFrom(locale, t, u, k) < 0
    ensures CompareFrom(locale, s, u, k) < 0
    decreases |s| - k
  {
    if k < |s| {
      if s[k] == t[k] == u[k] {
        Transitive(locale, s, t, u, k + 1);
      } else {
        ValuesAreOrdered(locale, s[k], t[k], u[k]);
        ValuesAreOrdered(locale, s[k], u[k], t[k]);
      }
    }
  }

  // ----- ranks -----

  datatype Freshness = Fresh | Stale | OtherFreshness

  datatype StationClass = Reference | Regulatory | Indicative | LowCost | OtherClass

  datatype Basis = Ground | Hybrid | OtherBasis

  /** A candidate station. `cell` is the map cell of its coordinates; `eligible` says that it has
      coordinates and the pollutant that is asked for. */
  datatype Item = Item(
    observationId: string, providerId: string, freshness: Freshness, stationClass: StationClass,
    mobile: bool, basis: Basis, time: int, cell: string, eligible: bool, rest: string)

  const MAX_SAFE_INTEGER := 0x1F_FFFF_FFFF_FFFF

  function Priority(priorities: map<string, int>, providerId: string): int {
    if providerId in priorities then priorities[providerId] else MAX_SAFE_INTEGER
  }

  function StationRank(item: Item, priority: int): (rank: Tuple)
    ensures |rank| == 7 && rank[6] == Text(item.observationId)
    ensures forall k | 0 <= k < 6 :: rank[k].Number?
  {
    [Number(match item.freshness case Fresh => 0 case Stale => 1 case OtherFreshness => 2),
     Number(match item.stationClass case Reference => 0 case Regulatory => 1 case Indicative => 2 case LowCost => 3 case OtherClass => 4),
     Number(if item.mobile then 1 else 0),
     Number(match item.basis case Ground => 0 case Hybrid => 1 case OtherBasis => 2),
     Number(-item.time),
     Number(priority),
     Text(item.observationId)]
  }

  datatype Ranking = Ranking(locale: Locale, priorities: map<string, int>)

  function RankOf(ranking: Ranking, item: Item): Tuple {
    StationRank(item, Priority(ranking.priorities, item.providerId))
  }

  predicate Better(ranking: Ranking, a: Item, b: Item) {
    CompareFrom(ranking.locale, RankOf(ranking, a), RankOf(ranking, b), 0) < 0
  }

  /** The ranking is a strict order, total on items with different observation ids. */
  lemma RankingIsTotal(ranking: Ranking, a: Item, b: Item, c: Item)
    requires Total(ranking.locale.lt)
    ensures !(Better(ranking, a, b) && Better(ranking, b, a))
    ensures Better(ranking, a, b) && Better(ranking, b, c) ==> Better(ranking, a, c)
    ensures a.observationId != b.observationId ==> Better(ranking, a, b) || Better(ranking, b, a)
  {
    var s, t := RankOf(ranking, a), RankOf(ranking, b);
    Antisymmetric(ranking.locale, s, t, 0);
    Antisymmetric(ranking.locale, t, s, 0);
    if a.observationId != b.observationId {
      assert s[0..][6] != t[0..][6];
    }
    if Better(ranking, a, b) && Better(ranking, b, c) {
      Transitive(ranking.locale, s, t, RankOf(ranking, c), 0);
    }
  }

  // ----- what the ranking prefers -----

  predicate FresherThan(a: Freshness, b: Freshness) {
    match a
    case Fresh => !b.Fresh?
    case Stale => b.OtherFreshness?
    case OtherFreshness => false
  }

  predicate BetterClass(a: StationClass, b: StationClass) {
    match a
    case Reference => !b.Reference?
    case Regulatory => b.Indicative? || b.LowCost? || b.OtherClass?
    case Indicative => b.LowCost? || b.OtherClass?
    case LowCost => b.OtherClass?
    case OtherClass => false
  }

  predicate BetterBasis(a: Basis, b: Basis) {
    match a
    case Ground => !b.Ground?
    case Hybrid => b.OtherBasis?
    case OtherBasis => false
  }

  /** Fresh before stale, then by class, fixed before mobile, measured before modelled, later before
      earlier, by the priority of the provider, and by observation id. */
  predicate Preferred(ranking: Ranking, a: Item, b: Item) {
    if a.freshness != b.freshness then FresherThan(a.freshness, b.freshness)
    else if a.stationClass != b.stationClass then BetterClass(a.stationClass, b.stationClass)
    else if a.mobile != b.mobile then b.mobile
    else if a.basis != b.basis then BetterBasis(a.basis, b.basis)
    else if a.time != b.time then a.time > b.time
    else
      || ListedBefore(ranking.priorities, a.providerId, b.providerId)
      || (!ListedBefore(ranking.priorities, b.providerId, a.providerId) && ranking.locale.lt(a.observationId, b.observationId))
  }

  /** Providers that are not listed come as late as the greatest safe integer. */
  predicate ListedBefore(priorities: map<string, int>, a: string, b: string) {
    if a in priorities && b in priorities then priorities[a] < priorities[b]
    else if a in priorities then priorities[a] < 9007199254740991
    else b in priorities && 9007199254740991 < priorities[b]
  }

  lemma CompareStep(locale: Locale, left: Tuple, right: Tuple, k: nat)
    requires |left| == |right| && k < |left|
    ensures CompareFrom(locale, left, right, k) ==
            if left[k] == right[k] then CompareFrom(locale, left, right, k + 1) else CompareValues(locale, left[k], right[k])
    ensures CompareFrom(locale, left, right, |left|) == 0
  {
  }

  /** The rank prefers what is preferred. */
  lemma BetterIsPreferred(ranking: Ranking, a: Item, b: Item)
    requires Total(ranking.locale.lt)
    ensures Better(ranking, a, b) <==> Preferred(ranking, a, b)
  {
    var s, t, locale := RankOf(ranking, a), RankOf(ranking, b), ranking.locale;
    CompareStep(locale, s, t, 0);
    CompareStep(locale, s, t, 1);
    CompareStep(locale, s, t, 2);
    CompareStep(locale, s, t, 3);
    CompareStep(locale, s, t, 4);
    CompareStep(locale, s, t, 5);
    CompareStep(locale, s, t, 6);
    IdsCompare(locale, a.observationId, b.observationId);
  }

  lemma IdsCompare(locale: Locale, a: string, b: string)
    requires Total(locale.lt)
    ensures CompareValues(locale, Text(a), Text(b)) < 0 <==> locale.lt(a, b)
    ensures a == b ==> !locale.lt(a, b)
  {
  }

  // ----- selection -----

  ghost predicate CandidateIn(items: seq<Item>, cell: string, item: Item) {
    item in items && item.eligible && item.cell == cell
  }

  /** The item kept for a cell is a candidate of the cell that no candidate beats. */
  ghost predicate Best(ranking: Ranking, items: seq<Item>, cell: string, kept: Item) {
    CandidateIn(items, cell, kept) && forall item | CandidateIn(items, cell, item) :: !Better(ranking, item, kept)
  }

  ghost predicate Thinned(ranking: Ranking, items: seq<Item>, cells: map<string, Item>) {
    forall cell :: ThinnedAt(ranking, items, cells, cell)
  }

  ghost predicate ThinnedAt(ranking: Ranking, items: seq<Item>, cells: map<string, Item>, cell: string) {
    && (cell in cells <==> exists item :: CandidateIn(items, cell, item))
    && (cell in cells ==> Best(ranking, items, cell, cells[cell]))
  }

  lemma ThinMore(ranking: Ranking, items: seq<Item>, cells: map<string, Item>, item: Item, cells': map<string, Item>)
    requires Total(ranking.locale.lt) && Thinned(ranking, items, cells)
    requires cells' == Step(ranking, cells, item)
    ensures Thinned(ranking, items + [item], cells')
  {
    forall cell ensures ThinnedAt(ranking, items + [item], cells', cell) {
      assert ThinnedAt(ranking, items, cells, cell);
      forall other ensures CandidateIn(items + [item], cell, other) <==>
                           CandidateIn(items, cell, other) || (other == item && item.eligible && item.cell == cell) {
        assert item in items + [item];
      }
      if item.eligible && item.cell == cell {
        NewBest(ranking, items, cells, item, cell);
        assert CandidateIn(items + [item], cell, item);
      }
      if cell in cells {
        assert CandidateIn(items + [item], cell, cells[cell]);
      }
    }
  }

  lemma NewBest(ranking: Ranking, items: seq<Item>, cells: map<string, Item>, item: Item, cell: string)
    requires Total(ranking.locale.lt) && ThinnedAt(ranking, items, cells, cell) && item.cell == cell
    ensures cell in cells && Better(ranking, item, cells[cell]) ==>
              forall other | CandidateIn(items, cell, other) :: !Better(ranking, other, item)
    ensures !Better(ranking, item, item)
  {
    RankingIsTotal(ranking, item, item, item);
    if cell in cells && Better(ranking, item, cells[cell]) {
      forall other | CandidateIn(items, cell, other) ensures !Better(ranking, other, item) {
        RankingIsTotal(ranking, other, item, cells[cell]);
      }
    }
  }

  /** What is kept after one more candidate: a tie leaves the earlier one in place. */
  function Step(ranking: Ranking, cells: map<string, Item>, item: Item): map<string, Item> {
    if item.eligible && (item.cell !in cells || Better(ranking, item, cells[item.cell])) then cells[item.cell := item]
    else cells
  }

  /** What is kept of candidates that arrive in this order. */
  function Selected(ranking: Ranking, items: seq<Item>): map<string, Item> {
    if items == [] then map[]
    else Step(ranking, Selected(ranking, items[..|items| - 1]), items[|items| - 1])
  }

  /** Keeps the best candidate of every cell. */
  method Thin(ranking: Ranking, candidates: seq<Item>) returns (cells: JsMap<Item>)
    requires Total(ranking.locale.lt)
    ensures cells.Wf() && cells.at == Selected(ranking, candidates)
    ensures Thinned(ranking, candidates, cells.at)
  {
    cells := Empty();
    for k := 0 to |candidates|
      invariant cells.Wf() && cells.at == Selected(ranking, candidates[..k])
    {
      var item := candidates[k];
      assert candidates[..k + 1][..k] == candidates[..k];
      if item.eligible {
        var better := true;
        if item.cell in cells.at {
          var order := CompareTuple(ranking.locale, RankOf(ranking, item), RankOf(ranking, cells.at[item.cell]));
          better := order < 0;
        }
        if better {
          cells := cells.Set(item.cell, item);
        }
      }
    }
    assert candidates[..|candidates|] == candidates;
    SelectedIsThinned(ranking, candidates);
  }

  lemma {:induction false} SelectedIsThinned(ranking: Ranking, items: seq<Item>)
    requires Total(ranking.locale.lt)
    ensures Thinned(ranking, items, Selected(ranking, items))
  {
    if items != [] {
      var first, last := items[..|items| - 1], items[|items| - 1];
      SelectedIsThinned(ranking, first);
      ThinMore(ranking, first, Selected(ranking, first), last, Selected(ranking, items));
      assert first + [last] == items;
    }
  }

  // ----- the order of arrival -----

  /** The kept item is the first of the best candidates of its cell. */
  lemma {:induction false} FirstBestIsKept(ranking: Ranking, items: seq<Item>, cell: string) returns (i: nat)
    requires Total(ranking.locale.lt) && cell in Selected(ranking, items)
    ensures i < |items| && items[i] == Selected(ranking, items)[cell] && Best(ranking, items, cell, items[i])
    ensures forall j | 0 <= j < i :: !Best(ranking, items, cell, items[j])
  {
    var first, last := items[..|items| - 1], items[|items| - 1];
    var kept := Selected(ranking, items)[cell];
    SelectedIsThinned(ranking, items);
    assert ThinnedAt(ranking, items, Selected(ranking, items), cell);
    if cell in Selected(ranking, first) && kept == Selected(ranking, first)[cell] {
      i := FirstBestIsKept(ranking, first, cell);
      forall j | 0 <= j < i ensures !Best(ranking, items, cell, items[j]) {
        StaysBeaten(ranking, first, items, cell, first[j]);
      }
    } else {
      i := |items| - 1;
      forall j | 0 <= j < i ensures !Best(ranking, items, cell, items[j]) {
        LateIsBetter(ranking, items, cell, j);
      }
    }
  }

  /** Who is not the best of a candidate list is not the best of a longer one. */
  lemma StaysBeaten(ranking: Ranking, items: seq<Item>, more: seq<Item>, cell: string, item: Item)
    requires (forall other :: other in items ==> other in more) && item in items
    requires !Best(ranking, items, cell, item)
    ensures !Best(ranking, more, cell, item)
  {
    if CandidateIn(items, cell, item) {
      var other :| CandidateIn(items, cell, other) && Better(ranking, other, item);
      assert CandidateIn(more, cell, other);
    }
  }

  /** When the last item takes a cell, no earlier one is best there. */
  lemma LateIsBetter(ranking: Ranking, items: seq<Item>, cell: string, j: nat)
    requires Total(ranking.locale.lt) && j < |items| - 1
    requires var before := Selected(ranking, items[..|items| - 1]);
             cell in Selected(ranking, items) &&
             !(cell in before && Selected(ranking, items)[cell] == before[cell])
    ensures !Best(ranking, items, cell, items[j])
  {
    var first, last := items[..|items| - 1], items[|items| - 1];
    var before := Selected(ranking, first);
    SelectedIsThinned(ranking, first);
    assert ThinnedAt(ranking, first, before, cell);
    assert items[j] == first[j] && last in items;
    if CandidateIn(items, cell, items[j]) {
      assert CandidateIn(first, cell, items[j]);
      assert Better(ranking, last, before[cell]) && !Better(ranking, items[j], before[cell]);
      NotWorse(ranking, last, before[cell], items[j]);
      assert CandidateIn(items, cell, last);
    }
  }

  /** Who beats an item beats whatever does not beat that item. */
  lemma NotWorse(ranking: Ranking, a: Item, b: Item, c: Item)
    requires Total(ranking.locale.lt) && Better(ranking, a, b) && !Better(ranking, c, b)
    ensures Better(ranking, a, c)
  {
    RankingIsTotal(ranking, c, a, b);
    Antisymmetric(ranking.locale, RankOf(ranking, a), RankOf(ranking, c), 0);
    Antisymmetric(ranking.locale, RankOf(ranking, c), RankOf(ranking, a), 0);
    assert RankOf(ranking, a)[0..] == RankOf(ranking, a) && RankOf(ranking, c)[0..] == RankOf(ranking, c);
  }

  /** No cell has two different candidates that no candidate of the cell beats. */
  ghost predicate NoTies(ranking: Ranking, items: seq<Item>) {
    forall cell, a, b :: Best(ranking, items, cell, a) && Best(ranking, items, cell, b) ==> a == b
  }

  /** Every rearrangement of the candidates leaves the same items. */
  ghost predicate OrderFree(ranking: Ranking, items: seq<Item>) {
    forall others: seq<Item> :: multiset(others) == multiset(items) ==> Selected(ranking, others) == Selected(ranking, items)
  }

  /** What is kept does not depend on the order of arrival exactly when no cell has a tie. */
  lemma OrderFreeIffNoTies(ranking: Ranking, items: seq<Item>)
    requires Total(ranking.locale.lt)
    ensures OrderFree(ranking, items) <==> NoTies(ranking, items)
  {
    if NoTies(ranking, items) {
      forall others: seq<Item> | multiset(others) == multiset(items)
        ensures Selected(ranking, others) == Selected(ranking, items)
      {
        SameMembers(items, others);
        SelectedAlike(ranking, items, others);
      }
    }
    if OrderFree(ranking, items) {
      forall cell, a, b | Best(ranking, items, cell, a) && Best(ranking, items, cell, b) ensures a == b {
        var first := MoveToFront(items, a);
        var second := MoveToFront(items, b);
        SameMembers(items, first);
        SameMembers(items, second);
        FrontIsKept(ranking, items, first, cell, a);
        FrontIsKept(ranking, items, second, cell, b);
      }
    }
  }

  lemma SameMembers(items: seq<Item>, others: seq<Item>)
    requires multiset(items) == multiset(others)
    ensures forall item :: item in items <==> item in others
  {
    forall item ensures item in items <==> item in others {
      assert item in items <==> item in multiset(items);
      assert item in others <==> item in multiset(others);
    }
  }

  lemma SameBest(ranking: Ranking, items: seq<Item>, others: seq<Item>, cell: string, item: Item)
    requires forall other :: other in items <==> other in others
    ensures Best(ranking, items, cell, item) <==> Best(ranking, others, cell, item)
  {
    forall other ensures CandidateIn(items, cell, other) <==> CandidateIn(others, cell, other) {}
  }

  lemma SelectedAlike(ranking: Ranking, items: seq<Item>, others: seq<Item>)
    requires Total(ranking.locale.lt) && NoTies(ranking, items)
    requires forall item :: item in items <==> item in others
    ensures Selected(ranking, items) == Selected(ranking, others)
  {
    var cells, cells' := Selected(ranking, items), Selected(ranking, others);
    SelectedIsThinned(ranking, items);
    SelectedIsThinned(ranking, others);
    forall cell ensures cell in cells <==> cell in cells' {
      assert ThinnedAt(ranking, items, cells, cell) && ThinnedAt(ranking, others, cells', cell);
      forall item ensures CandidateIn(items, cell, item) <==> CandidateIn(others, cell, item) {}
    }
    forall cell | cell in cells ensures cells[cell] == cells'[cell] {
      assert ThinnedAt(ranking, items, cells, cell) && ThinnedAt(ranking, others, cells', cell);
      SameBest(ranking, items, others, cell, cells'[cell]);
    }
  }

  lemma MoveToFront(items: seq<Item>, a: Item) returns (moved: seq<Item>)
    requires a in items
    ensures moved != [] && moved[0] == a && multiset(moved) == multiset(items)
  {
    var i :| 0 <= i < |items| && items[i] == a;
    moved := [a] + (items[..i] + items[i + 1..]);
    assert items == items[..i] + ([a] + items[i + 1..]);
  }

  /** A best candidate that arrives first is kept. */
  lemma FrontIsKept(ranking: Ranking, items: seq<Item>, moved: seq<Item>, cell: string, a: Item)
    requires Total(ranking.locale.lt) && Best(ranking, items, cell, a)
    requires moved != [] && moved[0] == a && forall item :: item in items <==> item in moved
    ensures cell in Selected(ranking, moved) && Selected(ranking, moved)[cell] == a
  {
    SameBest(ranking, items, moved, cell, a);
    SelectedIsThinned(ranking, moved);
    assert ThinnedAt(ranking, moved, Selected(ranking, moved), cell) && CandidateIn(moved, cell, a);
    var i := FirstBestIsKept(ranking, moved, cell);
  }

  ghost predicate IdsDiffer(items: seq<Item>) {
    forall a, b | a in items && b in items && a.observationId == b.observationId :: a == b
  }

  /** Where observation ids differ, what is kept does not depend on the order of arrival. */
  lemma ThinningIsOrderFree(ranking: Ranking, items: seq<Item>)
    requires Total(ranking.locale.lt) && IdsDiffer(items)
    ensures OrderFree(ranking, items)
  {
    forall cell, a, b | Best(ranking, items, cell, a) && Best(ranking, items, cell, b) ensures a == b {
      RankingIsTotal(ranking, a, b, a);
    }
    OrderFreeIffNoTies(ranking, items);
  }

  /** With repeated ids it may: of two different items with one rank, the first to arrive is kept. */
  lemma RepeatedIdsMatter(ranking: Ranking, a: Item, b: Item)
    requires a != b && a.eligible && b.eligible && a.cell == b.cell && RankOf(ranking, a) == RankOf(ranking, b)
    ensures Selected(ranking, [a, b]) == map[a.cell := a]
    ensures Selected(ranking, [b, a]) == map[a.cell := b]
    ensures Selected(ranking, [a, b]) != Selected(ranking, [b, a])
  {
    NotBetterThanEqual(ranking, a, b);
    NotBetterThanEqual(ranking, b, a);
    assert [a, b][..1] == [a] && [b, a][..1] == [b] && [a][..0] == [] && [b][..0] == [];
    assert Selected(ranking, [a]) == map[a.cell := a] && Selected(ranking, [b]) == map[b.cell := b];
    assert map[a.cell := a][a.cell] == a && map[a.cell := b][a.cell] == b;
  }

  lemma {:induction false} EqualFrom(locale: Locale, t: Tuple, k: nat)
    ensures CompareFrom(locale, t, t, k) == 0
    decreases |t| - k
  {
    if k < |t| {
      EqualFrom(locale, t, k + 1);
    }
  }

  lemma NotBetterThanEqual(ranking: Ranking, a: Item, b: Item)
    requires RankOf(ranking, a) == RankOf(ranking, b)
    ensures !Better(ranking, a, b)
  {
    EqualFrom(ranking.locale, RankOf(ranking, a), 0);
  }

  // ----- the columns of the grid -----

  function GridZoom(zoom: real): nat {
    var z := Min(26, zoom.Floor + 4);
    if z < 0 then 0 else z
  }

  function PowerOfTwo(n: nat): nat {
    if n == 0 then 1 else 2 * PowerOfTwo(n - 1)
  }

  /** Longitudes east of the antimeridian count on when the box spans it. */
  function Unwrapped(longitude: real, west: real, east: real): real {
    if west > east && longitude < west then longitude + 360.0 else longitude
  }

  /** The column of a point this many degrees from the western end of the grid. */
  function CellAt(degrees: real, scale: nat): int {
    (degrees / 360.0 * scale as real).Floor
  }

  function Column(longitude: real, west: real, east: real, zoom: real): int {
    var scale := PowerOfTwo(GridZoom(zoom));
    var unwrapped := Unwrapped(longitude, west, east);
    var offset := if west > east && unwrapped > 180.0 then 360.0 else 0.0;
    CellAt(unwrapped + 180.0 - offset, scale) + (offset / 360.0).Floor * scale
  }

  lemma FullTurn(degrees: real, scale: nat)
    ensures CellAt(degrees, scale) == CellAt(degrees - 360.0, scale) + scale
  {
    var y, z := (degrees - 360.0) / 360.0, scale as real;
    assert degrees / 360.0 == y + 1.0;
    assert (y + 1.0) * z == y * z + z;
  }

  /** Both branches give one formula. */
  lemma ColumnIsFloor(longitude: real, west: real, east: real, zoom: real)
    ensures Column(longitude, west, east, zoom) ==
            CellAt(Unwrapped(longitude, west, east) + 180.0, PowerOfTwo(GridZoom(zoom)))
  {
    var degrees := Unwrapped(longitude, west, east) + 180.0;
    FullTurn(degrees, PowerOfTwo(GridZoom(zoom)));
    assert (360.0 / 360.0).Floor == 1 && (0.0 / 360.0).Floor == 0;
    assert degrees - 0.0 == degrees;
  }

  /** How far east of the western edge a longitude lies. */
  function EastOf(west: real, longitude: real): real {
    if longitude < west then longitude + 360.0 - west else longitude - west
  }

  lemma CellsGrow(x: real, y: real, scale: nat)
    requires x <= y
    ensures CellAt(x, scale) <= CellAt(y, scale)
  {
    var a, b, z := x / 360.0, y / 360.0, scale as real;
    assert (b - a) * z >= 0.0;
    assert b * z == a * z + (b - a) * z;
  }

  /** Columns grow eastward, across the antimeridian too. */
  lemma ColumnsGoEast(a: real, b: real, west: real, east: real, zoom: real)
    requires west > east || (west <= a && west <= b)
    requires EastOf(west, a) <= EastOf(west, b)
    ensures Column(a, west, east, zoom) <= Column(b, west, east, zoom)
  {
    ColumnIsFloor(a, west, east, zoom);
    ColumnIsFloor(b, west, east, zoom);
    CellsGrow(Unwrapped(a, west, east) + 180.0, Unwrapped(b, west, east) + 180.0, PowerOfTwo(GridZoom(zoom)));
  }
}
