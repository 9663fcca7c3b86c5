/** The snapshot protocol between the stations service and the map client. Between any two
    requests snapshots may vanish, cursors may expire, source policy may change and other
    clients may create snapshots of their own. */
module StationProtocol {
  import opened Basics
  import opened StationPaging
  import Ordering
  import JsCollections

  const PAGE_SIZE := 500
  const MAX_FEATURES := 2000

  datatype ServiceError = CursorInvalid | CursorExpired | Unavailable

  datatype Response = Ok(page: Page) | Error(error: ServiceError)

  /** What the world does before a request is served, and after its response arrives. */
  datatype Turn = Turn(
    vanished: set<nat>,           // snapshots that are no longer stored
    others: seq<Snapshot>,        // snapshots other clients have stored since
    disallowed: set<string>,      // source ids the policy forbids
    upstream: Option<Snapshot>,   // what the providers would yield now
    cursorsExpired: bool,         // the presented cursor has outlived its signature
    current: bool)                // the client still wants the result when it arrives

  predicate AnyDisallowed(features: seq<Feature>, disallowed: set<string>) {
    exists i | 0 <= i < |features| :: exists k | 0 <= k < |features[i].sourceIds| :: features[i].sourceIds[k] in disallowed
  }

  /** The stored form of what the providers yielded: a prefix, marked when it is not the whole. */
  predicate StoredForm(value: Snapshot, snapshot: Snapshot) {
    && snapshot.features <= value.features && |snapshot.features| <= MAX_SNAPSHOT_FEATURES
    && snapshot.queryHash == value.queryHash
    && (snapshot.diagnostics.truncated <==> value.diagnostics.truncated || snapshot.features != value.features)
  }

  /** The stored form keeps the longest prefix that fits, of at most 2000 features. */
  ghost predicate LongestThatFits(sizes: Sizes, value: Snapshot, snapshot: Snapshot) {
    && snapshot == BuildSnapshot(value, snapshot.features)
    && snapshot.features <= value.features && |snapshot.features| <= MAX_SNAPSHOT_FEATURES
    && (snapshot.features == [] || sizes.snapshot(snapshot) <= MAX_SNAPSHOT_BYTES)
    && forall m | |snapshot.features| < m <= Min(|value.features|, MAX_SNAPSHOT_FEATURES) :: TooLarge(sizes, value, m)
  }

  predicate TooLarge(sizes: Sizes, value: Snapshot, m: nat)
    requires m <= |value.features|
  {
    sizes.snapshot(BuildSnapshot(value, value.features[..m])) > MAX_SNAPSHOT_BYTES
  }

  lemma LongestIsStoredForm(sizes: Sizes, value: Snapshot, snapshot: Snapshot)
    requires LongestThatFits(sizes, value, snapshot)
    ensures StoredForm(value, snapshot)
  {
    assert snapshot.features == value.features[..|snapshot.features|];
  }

  /** Features are dropped from the end until what is built from them fits. */
  method FittingFeatures(sizes: Sizes, all: seq<Feature>, build: seq<Feature> -> Snapshot) returns (features: seq<Feature>)
    ensures features <= all && |features| <= MAX_SNAPSHOT_FEATURES
    ensures features == [] || sizes.snapshot(build(features)) <= MAX_SNAPSHOT_BYTES
    ensures forall m | |features| < m <= Min(|all|, MAX_SNAPSHOT_FEATURES) :: sizes.snapshot(build(all[..m])) > MAX_SNAPSHOT_BYTES
  {
    features := all[..Min(|all|, MAX_SNAPSHOT_FEATURES)];
    while |features| > 0 && sizes.snapshot(build(features)) > MAX_SNAPSHOT_BYTES
      invariant |features| <= Min(|all|, MAX_SNAPSHOT_FEATURES) && features == all[..|features|]
      invariant forall m | |features| < m <= Min(|all|, MAX_SNAPSHOT_FEATURES) :: sizes.snapshot(build(all[..m])) > MAX_SNAPSHOT_BYTES
      decreases |features|
    {
      features := features[..|features| - 1];
    }
  }

  /** The snapshot of a cursor is served when it is still stored, for the query the cursor was made
      for, and free of sources the policy forbids now. */
  predicate Servable(store: map<nat, Snapshot>, cursor: Cursor, queryHash: string, turn: Turn) {
    && !turn.cursorsExpired && cursor.queryHash == queryHash
    && cursor.snapshotId in store && store[cursor.snapshotId].queryHash == queryHash
    && !AnyDisallowed(store[cursor.snapshotId].features, turn.disallowed)
  }

  function Refusal(cursor: Cursor, queryHash: string, turn: Turn): ServiceError {
    if !turn.cursorsExpired && cursor.queryHash != queryHash then CursorInvalid else CursorExpired
  }

  /** One request, from the store and next identifier before it to those after it. A cursor is answered
      with a page of the snapshot it leads into exactly when that may be served; without a cursor a new
      snapshot is stored exactly when there is something upstream. Stored snapshots never change. */
  ghost predicate Answered(sizes: Sizes, before: map<nat, Snapshot>, firstId: nat, store: map<nat, Snapshot>, nextId: nat,
                           queryHash: string, limit: nat, cursor: Option<Cursor>, turn: Turn, response: Response, from: Snapshot)
  {
    && nextId >= firstId
    && (forall id | id < firstId :: id in store <==> id in before && id !in turn.vanished)
    && (forall id | id < firstId && id in store :: store[id] == before[id])
    && match cursor
       case Some(cursor) =>
         && (response.Ok? <==> Servable(store, cursor, queryHash, turn))
         && (response.Error? ==> response.error == Refusal(cursor, queryHash, turn))
         && (response.Ok? ==> && from == store[cursor.snapshotId]
                              && Serves(sizes, response.page, cursor.snapshotId, from, cursor.offset, limit))
       case None =>
         && (response.Ok? <==> turn.upstream.Some?)
         && (response.Error? ==> response.error == Unavailable)
         && (response.Ok? ==> && nextId > firstId && nextId - 1 in store && store[nextId - 1] == from
                              && LongestThatFits(sizes, turn.upstream.value.(queryHash := queryHash), from)
                              && Serves(sizes, response.page, nextId - 1, from, 0, limit))
  }

  class StationService {
    var store: map<nat, Snapshot>
    var nextId: nat
    const sizes: Sizes

    constructor (sizes: Sizes)
      ensures Valid() && this.sizes == sizes
    {
      this.sizes := sizes;
      store := map[];
      nextId := 0;
    }

    /** Identifiers are never used twice. */
    predicate Valid()
      reads this
    {
      forall id :: id in store ==> id < nextId
    }

    /** The world moves on: stored snapshots vanish or stay as they are, new ones get new ids. */
    method Advance(turn: Turn)
      requires Valid()
      modifies this
      ensures Valid() && nextId >= old(nextId)
      ensures forall id | id < old(nextId) :: id in store <==> id in old(store) && id !in turn.vanished
      ensures forall id | id < old(nextId) && id in store :: store[id] == old(store)[id]
    {
      store := store - turn.vanished;
      var i := 0;
      while i < |turn.others|
        invariant i <= |turn.others|
        invariant Valid() && nextId >= old(nextId)
        invariant forall id | id < old(nextId) :: id in store <==> id in old(store) && id !in turn.vanished
        invariant forall id | id < old(nextId) && id in store :: store[id] == old(store)[id]
      {
        store := store[nextId := turn.others[i]];
        nextId := nextId + 1;
        i := i + 1;
      }
    }

    /** Stores as many features as fit under a firstId identifier. */
    method CreateSnapshot(value: Snapshot) returns (id: nat, snapshot: Snapshot)
      requires Valid()
      modifies this
      ensures Valid() && id == old(nextId) && nextId == old(nextId) + 1
      ensures store == old(store)[id := snapshot]
      ensures StoredForm(value, snapshot) && LongestThatFits(sizes, value, snapshot)
    {
      var build := features => BuildSnapshot(value, features);
      var features := FittingFeatures(sizes, value.features, build);
      snapshot := build(features);
      LongestIsStoredForm(sizes, value, snapshot);
      id := nextId;
      nextId := nextId + 1;
      store := store[id := snapshot];
    }

    /** The snapshot a cursor points into, if it may still be served for this query. */
    method ReadSnapshot(cursor: Cursor, queryHash: string, turn: Turn) returns (r: Option<Snapshot>, error: ServiceError)
      ensures r.Some? <==> Servable(store, cursor, queryHash, turn)
      ensures r.Some? ==> r.value == store[cursor.snapshotId]
      ensures r.None? ==> error == Refusal(cursor, queryHash, turn)
    {
      error := CursorExpired;
      if turn.cursorsExpired {
        return None, CursorExpired;
      }
      if cursor.queryHash != queryHash {
        return None, CursorInvalid;
      }
      if cursor.snapshotId !in store {
        return None, CursorExpired;
      }
      var snapshot := store[cursor.snapshotId];
      if snapshot.queryHash != queryHash || AnyDisallowed(snapshot.features, turn.disallowed) {
        return None, CursorExpired;
      }
      return Some(snapshot), CursorExpired;
    }

    /** One request. Without a cursor it creates a snapshot; with one it reads on in an old one. */
    method Stations(queryHash: string, limit: nat, cursor: Option<Cursor>, turn: Turn) returns (response: Response, ghost from: Snapshot)
      requires Valid()
      modifies this
      ensures Valid()
      ensures Answered(sizes, old(store), old(nextId), store, nextId, queryHash, limit, cursor, turn, response, from)
    {
      from := Snapshot("", "", [], Diagnostics(false, [], ""));
      Advance(turn);
      if cursor.Some? {
        var restored, error := ReadSnapshot(cursor.value, queryHash, turn);
        if restored.None? {
          return Error(error), from;
        }
        var page := PageResponse(sizes, cursor.value.snapshotId, restored.value, cursor.value.offset, limit);
        return Ok(page), restored.value;
      }
      if turn.upstream.None? {
        return Error(Unavailable), from;
      }
      var id, snapshot := CreateSnapshot(turn.upstream.value.(queryHash := queryHash));
      var page := PageResponse(sizes, id, snapshot, 0, limit);
      return Ok(page), snapshot;
    }
  }

  function BuildSnapshot(value: Snapshot, features: seq<Feature>): Snapshot {
    value.(features := features,
           diagnostics := value.diagnostics.(
             truncated := value.diagnostics.truncated || |features| < |value.features|,
             warnings := if |features| < |value.features| then AddWarning(value.diagnostics.warnings) else value.diagnostics.warnings))
  }

  function AddWarning(warnings: seq<string>): seq<string> {
    Ordering.Sort(Before, JsCollections.Unique(warnings + ["quota_truncated"]))
  }

  /** The order of `sort` without a comparison. */
  predicate Before(a: string, b: string) {
    b != "" && (a == "" || a[0] < b[0] || (a[0] == b[0] && Before(a[1..], b[1..])))
  }

  /** The page is a largest one at this offset of the snapshot. */
  ghost predicate Serves(sizes: Sizes, page: Page, id: nat, snapshot: Snapshot, offset: nat, limit: nat) {
    exists n: nat :: Largest(sizes, id, snapshot, offset, limit, n) && page == PageOf(id, snapshot, offset, limit, n)
  }

  // ----- the client -----

  datatype Loaded =
    | Done(features: seq<Feature>, warnings: seq<string>, truncated: bool)
    | Superseded            // the client no longer wants the result
    | Failed(error: ServiceError)
    | OutOfRequests         // the request budget ran out

  /** The result is the whole of one snapshot that the turn stored. */
  ghost predicate OneSnapshot(sizes: Sizes, loaded: Loaded, turn: Turn, queryHash: string) {
    exists snapshot :: WholeOf(sizes, loaded, turn, snapshot, queryHash)
  }

  ghost predicate WholeOf(sizes: Sizes, loaded: Loaded, turn: Turn, snapshot: Snapshot, queryHash: string) {
    && loaded.Done? && turn.upstream.Some?
    && var upstream := turn.upstream.value.(queryHash := queryHash);
       && LongestThatFits(sizes, upstream, snapshot)
       && loaded.features == snapshot.features && |loaded.features| <= MAX_FEATURES
       && SameWarnings(loaded.warnings, snapshot.diagnostics.warnings)
       && (!loaded.truncated ==> snapshot.features == upstream.features && !upstream.diagnostics.truncated)
       && (PagesFit(sizes) && loaded.truncated ==> snapshot.diagnostics.truncated)
  }

  ghost predicate SameWarnings(warnings: seq<string>, others: seq<string>) {
    forall w :: w in warnings <==> w in others
  }

  /** No page is cut short for its size. */
  ghost predicate PagesFit(sizes: Sizes) {
    forall page: Page :: |page.features| <= PAGE_SIZE ==> Fits(sizes, page)
  }

  /** Whatever was stored since the load began stays stored, its cursors live and its sources allowed. */
  predicate Quiet(turn: Turn, value: Snapshot, firstId: nat) {
    && (forall id | id in turn.vanished :: id < firstId)
    && !turn.cursorsExpired && turn.current && !AnyDisallowed(value.features, turn.disallowed)
  }

  predicate QuietNow(turn: Turn, origin: Turn, firstId: nat) {
    origin.upstream.Some? && Quiet(turn, origin.upstream.value, firstId)
  }

  ghost predicate QuietWorld(turns: nat -> Turn, start: nat, firstId: nat) {
    forall k | start <= k < start + MAX_FEATURES :: QuietNow(turns(k), turns(start), firstId)
  }

  /** What a load has collected so far. */
  datatype Progress = Progress(
    cursor: Option<Cursor>, features: seq<Feature>, warnings: seq<string>, truncated: bool, requests: nat)

  /** A page adds its features as far as there is room, its warnings and its truncation mark. */
  function Taken(p: Progress, page: Page): Progress {
    var remaining := if |p.features| < MAX_FEATURES then MAX_FEATURES - |p.features| else 0;
    Progress(page.nextCursor, p.features + Slice(page.features, 0, remaining), AddAll(p.warnings, page.warnings),
             p.truncated || page.truncated || |page.features| > remaining, p.requests + 1)
  }

  /** The features read so far are the first of the snapshot that the turn stored. */
  ghost predicate Read(sizes: Sizes, features: seq<Feature>, truncated: bool, snapshot: Snapshot, turn: Turn, queryHash: string) {
    && turn.upstream.Some? && LongestThatFits(sizes, turn.upstream.value.(queryHash := queryHash), snapshot)
    && features <= snapshot.features
    && (features != [] && snapshot.diagnostics.truncated ==> truncated)
    && (PagesFit(sizes) && truncated ==> snapshot.diagnostics.truncated)
  }

  /** A load that begins has nothing; a load that goes on reads a snapshot. */
  ghost predicate OnTrack(sizes: Sizes, store: map<nat, Snapshot>, nextId: nat, p: Progress, turn: Turn, queryHash: string) {
    if p.cursor.None? then p == Progress(None, [], [], false, 0)
    else exists snapshot :: Reading(sizes, store, nextId, p, snapshot, turn, queryHash)
  }

  /** The cursor stands behind what was read, and leads into the snapshot while that is stored. */
  ghost predicate Reading(sizes: Sizes, store: map<nat, Snapshot>, nextId: nat, p: Progress, snapshot: Snapshot, turn: Turn, queryHash: string) {
    && p.cursor.Some?
    && var cursor := p.cursor.value;
       && cursor.snapshotId < nextId && (cursor.snapshotId in store ==> store[cursor.snapshotId] == snapshot)
       && cursor.queryHash == queryHash && cursor.offset == |p.features| < |snapshot.features|
       && Read(sizes, p.features, p.truncated, snapshot, turn, queryHash)
       && SameWarnings(p.warnings, snapshot.diagnostics.warnings)
       && (OneFeatureFits(sizes) ==> p.requests <= |p.features|)
  }

  /** The snapshot of the cursor was stored since the load began, and still is. */
  predicate Held(store: map<nat, Snapshot>, firstId: nat, cursor: Option<Cursor>) {
    cursor.Some? ==> firstId <= cursor.value.snapshotId && cursor.value.snapshotId in store
  }

  /** Loads one snapshot page by page. The k-th request of the load happens in turns(start + k);
      a cursor that has expired restarts the load once. `origin` is the turn of the request that
      created the snapshot the result comes from, `starts` counts requests without a cursor. */
  method LoadSnapshot(service: StationService, queryHash: string, turns: nat -> Turn, start: nat, allowRestart: bool, budget: nat)
    returns (loaded: Loaded, ghost origin: nat, ghost starts: nat)
    requires service.Valid()
    modifies service
    ensures service.Valid()
    ensures loaded.Done? ==> start <= origin && OneSnapshot(service.sizes, loaded, turns(origin), queryHash)
    ensures starts <= if allowRestart then 2 else 1
    ensures OneFeatureFits(service.sizes) && budget >= (if allowRestart then 2 * MAX_FEATURES + 2 else MAX_FEATURES + 1) ==>
              !loaded.OutOfRequests?
    ensures OneFeatureFits(service.sizes) && budget >= MAX_FEATURES && QuietWorld(turns, start, old(service.nextId)) ==>
              loaded.Done? && origin == start && starts == 1
    decreases allowRestart
  {
    var p := Progress(None, [], [], false, 0);
    origin, starts := start, 0;
    ghost var quiet := OneFeatureFits(service.sizes) && budget >= MAX_FEATURES && QuietWorld(turns, start, service.nextId);
    ghost var oldest := service.nextId;
    while true
      invariant service.Valid() && service.nextId >= oldest
      invariant OnTrack(service.sizes, service.store, service.nextId, p, turns(origin), queryHash)
      invariant start <= origin && starts == (if p.cursor.Some? then 1 else 0) && p.requests <= budget
      invariant quiet ==> Held(service.store, oldest, p.cursor) && origin == start
      decreases budget - p.requests
    {
      InBounds(service.sizes, service.store, service.nextId, p, turns(origin), queryHash);
      if p.requests == budget {
        return OutOfRequests, origin, starts;
      }
      var turn := turns(start + p.requests);
      var response := Request(service, queryHash, p.cursor, turn, p, turns(origin), oldest);
      if p.cursor.None? {
        origin, starts := start + p.requests, starts + 1;
      }
      if response.Error? {
        if p.cursor.Some? && allowRestart && response.error.CursorExpired? && turn.current {
          ghost var more;
          loaded, origin, more := LoadSnapshot(service, queryHash, turns, start + p.requests + 1, false, budget - p.requests - 1);
          starts := starts + more;
          return;
        }
        return Failed(response.error), origin, starts;
      }
      if !turn.current {
        return Superseded, origin, starts;
      }
      p := Taken(p, response.page);
      if p.cursor.None? {
        break;
      }
      if |p.features| >= MAX_FEATURES {
        p := p.(truncated := true);
        break;
      }
    }
    loaded := Done(p.features, p.warnings, p.truncated);
  }

  /** The next request of a load. `oldest` is the first identifier that was free when the load began. */
  method Request(service: StationService, queryHash: string, cursor: Option<Cursor>, turn: Turn,
                 ghost p: Progress, ghost origin: Turn, ghost oldest: nat)
    returns (response: Response)
    requires service.Valid() && p.cursor == cursor && oldest <= service.nextId
    requires OnTrack(service.sizes, service.store, service.nextId, p, origin, queryHash)
    modifies service
    ensures service.Valid() && service.nextId >= old(service.nextId)
    ensures response.Ok? ==>
              GoesOn(service.sizes, service.store, service.nextId, Taken(p, response.page), if cursor.None? then turn else origin, queryHash)
    ensures QuietNow(turn, if cursor.None? then turn else origin, oldest) && Held(old(service.store), oldest, cursor) ==>
              response.Ok? && turn.current && Held(service.store, oldest, response.page.nextCursor)
  {
    ghost var store, nextId := service.store, service.nextId;
    ghost var from;
    response, from := service.Stations(queryHash, PAGE_SIZE, cursor, turn);
    ghost var origin' := if cursor.None? then turn else origin;
    if response.Ok? {
      PageTaken(service.sizes, store, nextId, service.store, service.nextId, p, origin', queryHash, turn, response, from);
    }
    if QuietNow(turn, origin', oldest) && Held(store, oldest, cursor) {
      QuietAnswer(service.sizes, store, nextId, service.store, service.nextId, p, origin', queryHash, turn, response, from, oldest);
    }
  }

  /** A load that goes on has not yet read as many features as there can be. */
  lemma InBounds(sizes: Sizes, store: map<nat, Snapshot>, nextId: nat, p: Progress, turn: Turn, queryHash: string)
    requires OnTrack(sizes, store, nextId, p, turn, queryHash)
    ensures |p.features| < MAX_FEATURES
    ensures OneFeatureFits(sizes) ==> p.requests < MAX_FEATURES
  {
    if p.cursor.Some? {
      var snapshot :| Reading(sizes, store, nextId, p, snapshot, turn, queryHash);
    }
  }

  /** In a quiet turn a request is answered, and the snapshot that is being read stays. */
  lemma QuietAnswer(sizes: Sizes, before: map<nat, Snapshot>, firstId: nat, store: map<nat, Snapshot>, nextId: nat, p: Progress,
                    origin: Turn, queryHash: string, turn: Turn, response: Response, from: Snapshot, oldest: nat)
    requires OnTrack(sizes, before, firstId, p, origin, queryHash) && (p.cursor.None? ==> origin == turn)
    requires Answered(sizes, before, firstId, store, nextId, queryHash, PAGE_SIZE, p.cursor, turn, response, from)
    requires QuietNow(turn, origin, oldest) && Held(before, oldest, p.cursor) && oldest <= firstId
    ensures response.Ok? && Held(store, oldest, response.page.nextCursor)
  {
    if p.cursor.Some? {
      var snapshot :| Reading(sizes, before, firstId, p, snapshot, origin, queryHash);
      QuietServes(sizes, before, firstId, store, p, snapshot, origin, queryHash, turn);
    }
    AnswerHeld(sizes, before, firstId, store, nextId, p.cursor, queryHash, turn, response, from, oldest);
  }

  /** The cursor that comes with an answer leads into a snapshot that is stored. */
  lemma AnswerHeld(sizes: Sizes, before: map<nat, Snapshot>, firstId: nat, store: map<nat, Snapshot>, nextId: nat,
                   cursor: Option<Cursor>, queryHash: string, turn: Turn, response: Response, from: Snapshot, oldest: nat)
    requires Answered(sizes, before, firstId, store, nextId, queryHash, PAGE_SIZE, cursor, turn, response, from)
    requires Held(before, oldest, cursor) && oldest <= firstId && response.Ok?
    ensures Held(store, oldest, response.page.nextCursor)
  {
    var id := if cursor.Some? then cursor.value.snapshotId else nextId - 1;
    var offset := if cursor.Some? then cursor.value.offset else 0;
    CursorStays(sizes, response.page, id, from, offset, PAGE_SIZE);
  }

  lemma QuietServes(sizes: Sizes, before: map<nat, Snapshot>, firstId: nat, store: map<nat, Snapshot>, p: Progress,
                    snapshot: Snapshot, origin: Turn, queryHash: string, turn: Turn)
    requires Reading(sizes, before, firstId, p, snapshot, origin, queryHash)
    requires p.cursor.value.snapshotId in before && p.cursor.value.snapshotId !in turn.vanished
    requires forall id | id < firstId :: id in store <==> id in before && id !in turn.vanished
    requires forall id | id < firstId && id in store :: store[id] == before[id]
    requires !turn.cursorsExpired && !AnyDisallowed(origin.upstream.value.features, turn.disallowed)
    ensures Servable(store, p.cursor.value, queryHash, turn)
  {
    StillAllowed(snapshot.features, origin.upstream.value.features, turn.disallowed);
  }

  lemma StillAllowed(features: seq<Feature>, all: seq<Feature>, disallowed: set<string>)
    requires features <= all && !AnyDisallowed(all, disallowed)
    ensures !AnyDisallowed(features, disallowed)
  {
    forall i, k | 0 <= i < |features| && 0 <= k < |features[i].sourceIds| ensures features[i].sourceIds[k] !in disallowed {
      assert features[i] == all[i];
    }
  }

  lemma CursorStays(sizes: Sizes, page: Page, id: nat, snapshot: Snapshot, offset: nat, limit: nat)
    requires Serves(sizes, page, id, snapshot, offset, limit)
    ensures page.nextCursor.Some? ==> page.nextCursor.value.snapshotId == id
  {
  }

  /** A load that has read a page is at its end, or goes on. */
  ghost predicate GoesOn(sizes: Sizes, store: map<nat, Snapshot>, nextId: nat, p: Progress, turn: Turn, queryHash: string) {
    if p.cursor.None? then OneSnapshot(sizes, Done(p.features, p.warnings, p.truncated), turn, queryHash)
    else |p.features| < MAX_FEATURES && OnTrack(sizes, store, nextId, p, turn, queryHash)
  }

  /** An answer takes the load one page on, or to its end. */
  lemma PageTaken(sizes: Sizes, before: map<nat, Snapshot>, firstId: nat, store: map<nat, Snapshot>, nextId: nat, p: Progress,
                  origin: Turn, queryHash: string, turn: Turn, response: Response, from: Snapshot)
    requires OnTrack(sizes, before, firstId, p, origin, queryHash) && (p.cursor.None? ==> origin == turn)
    requires Answered(sizes, before, firstId, store, nextId, queryHash, PAGE_SIZE, p.cursor, turn, response, from)
    requires response.Ok? && forall id | id in store :: id < nextId
    ensures GoesOn(sizes, store, nextId, Taken(p, response.page), origin, queryHash)
  {
    var id := if p.cursor.Some? then p.cursor.value.snapshotId else nextId - 1;
    var next := Taken(p, response.page);
    if p.cursor.Some? {
      var snapshot :| Reading(sizes, before, firstId, p, snapshot, origin, queryHash);
      assert snapshot == from;
    }
    PageRead(sizes, response.page, id, from, p.features, p.truncated, origin, queryHash);
    AddAllAdds(p.warnings, response.page.warnings);
    if next.cursor.None? {
      assert WholeOf(sizes, Done(next.features, next.warnings, next.truncated), origin, from, queryHash);
    } else {
      assert Reading(sizes, store, nextId, next, from, origin, queryHash);
    }
  }

  /** One more page is read. */
  lemma PageRead(sizes: Sizes, page: Page, id: nat, snapshot: Snapshot, features: seq<Feature>, truncated: bool, turn: Turn, queryHash: string)
    requires Serves(sizes, page, id, snapshot, |features|, PAGE_SIZE)
    requires Read(sizes, features, truncated, snapshot, turn, queryHash)
    ensures var remaining := MAX_FEATURES - |features|;
            && remaining >= 0
            && |page.features| <= remaining && Slice(page.features, 0, remaining) == page.features
            && Read(sizes, features + page.features, truncated || page.truncated, snapshot, turn, queryHash)
            && (snapshot.diagnostics.truncated ==> page.truncated)
            && page.warnings == snapshot.diagnostics.warnings
            && (page.nextCursor.None? <==> features + page.features == snapshot.features)
            && (page.nextCursor.Some? ==>
                  && page.nextCursor.value.snapshotId == id && page.nextCursor.value.queryHash == queryHash
                  && page.nextCursor.value.offset == |features| + |page.features| < |snapshot.features|)
            && (OneFeatureFits(sizes) && |features| < |snapshot.features| ==> |page.features| > 0)
  {
    PageContinues(sizes, page, id, snapshot, |features|, PAGE_SIZE);
    assert snapshot.features[..|features|] + snapshot.features[|features|..|features| + |page.features|]
        == snapshot.features[..|features| + |page.features|];
    assert features == snapshot.features[..|features|];
  }

  function AddAll(warnings: seq<string>, more: seq<string>): seq<string>
    decreases |more|
  {
    if more == [] then warnings
    else AddAll(if more[0] in warnings then warnings else warnings + [more[0]], more[1..])
  }

  lemma {:induction false} AddAllAdds(warnings: seq<string>, more: seq<string>)
    ensures forall w :: w in AddAll(warnings, more) <==> w in warnings || w in more
    decreases |more|
  {
    if more != [] {
      AddAllAdds(if more[0] in warnings then warnings else warnings + [more[0]], more[1..]);
      assert more == [more[0]] + more[1..];
    }
  }

  /** What a page of a stored snapshot gives the reader. */
  lemma PageContinues(sizes: Sizes, page: Page, id: nat, snapshot: Snapshot, offset: nat, limit: nat)
    requires Serves(sizes, page, id, snapshot, offset, limit) && offset <= |snapshot.features|
    ensures offset + |page.features| <= |snapshot.features|
    ensures page.features == snapshot.features[offset..offset + |page.features|]
    ensures page.nextCursor == (if offset + |page.features| < |snapshot.features|
                                then Some(Cursor(id, snapshot.queryHash, offset + |page.features|)) else None)
    ensures snapshot.diagnostics.truncated ==> page.truncated
    ensures PagesFit(sizes) && limit <= PAGE_SIZE && page.truncated ==> snapshot.diagnostics.truncated
    ensures page.warnings == snapshot.diagnostics.warnings
    ensures OneFeatureFits(sizes) && limit > 0 && offset < |snapshot.features| ==> |page.features| > 0
  {
    var n: nat :| Largest(sizes, id, snapshot, offset, limit, n) && page == PageOf(id, snapshot, offset, limit, n);
    PageHolds(id, snapshot, offset, limit, n);
    if OneFeatureFits(sizes) && limit > 0 && offset < |snapshot.features| {
      Progresses(sizes, id, snapshot, offset, limit, n);
    }
    if PagesFit(sizes) && limit <= PAGE_SIZE {
      NothingIsCut(sizes, id, snapshot, offset, limit, n);
    }
  }

  /** What the page of the first n items holds. */
  lemma PageHolds(id: nat, snapshot: Snapshot, offset: nat, limit: nat, n: nat)
    requires n <= |Slice(snapshot.features, offset, offset + limit)| && offset <= |snapshot.features|
    ensures var page := PageOf(id, snapshot, offset, limit, n);
            && |page.features| == n && offset + n <= |snapshot.features|
            && page.features == snapshot.features[offset..offset + n]
            && page.nextCursor == (if offset + n < |snapshot.features|
                                   then Some(Cursor(id, snapshot.queryHash, offset + n)) else None)
            && (page.truncated <==> snapshot.diagnostics.truncated || n < |Slice(snapshot.features, offset, offset + limit)|)
            && page.warnings == snapshot.diagnostics.warnings
  {
    SliceStart(snapshot.features, offset, offset + limit, n);
  }

  lemma SliceStart<T>(s: seq<T>, from: nat, to: nat, n: nat)
    requires from <= |s| && n <= |Slice(s, from, to)|
    ensures from + n <= |s| && Slice(s, from, to)[..n] == s[from..from + n]
  {
  }

  /** Where no page is cut short for its size, a page holds all there is up to its limit. */
  lemma NothingIsCut(sizes: Sizes, id: nat, snapshot: Snapshot, offset: nat, limit: nat, n: nat)
    requires PagesFit(sizes) && limit <= PAGE_SIZE && Largest(sizes, id, snapshot, offset, limit, n)
    ensures n == |Slice(snapshot.features, offset, offset + limit)|
  {
    var all := Slice(snapshot.features, offset, offset + limit);
    var page := PageOf(id, snapshot, offset, limit, |all|);
    assert |page.features| <= PAGE_SIZE;
    assert Fits(sizes, page);
  }
}
