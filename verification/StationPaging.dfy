/** Station snapshots served in pages: the pages of one snapshot, their cursors, and what
    following the cursors yields. Sizes in bytes are an uninterpreted function. */
module StationPaging {
  import opened Basics

  const MAX_SNAPSHOT_FEATURES := 2000
  const MAX_SNAPSHOT_BYTES := 8 * 1024 * 1024
  const MAX_RESPONSE_BYTES := 2 * 1024 * 1024

  datatype Feature = Feature(id: string, sourceIds: seq<string>, properties: string)

  datatype Diagnostics = Diagnostics(truncated: bool, warnings: seq<string>, rest: string)

  datatype Snapshot = Snapshot(
    queryHash: string, policyFingerprint: string, features: seq<Feature>, diagnostics: Diagnostics)

  datatype Cursor = Cursor(snapshotId: nat, queryHash: string, offset: nat)

  datatype Page = Page(
    features: seq<Feature>, nextCursor: Option<Cursor>, truncated: bool,
    warnings: seq<string>, diagnostics: string, offset: nat)

  /** Byte lengths of the JSON of snapshots and pages. */
  datatype Sizes = Sizes(snapshot: Snapshot -> nat, page: Page -> nat)

  /** JavaScript's slice(from, to): bounds beyond the end mean the end. */
  function Slice<T>(s: seq<T>, from: nat, to: nat): seq<T> {
    if from >= Min(to, |s|) then [] else s[from..Min(to, |s|)]
  }

  // ----- pages -----

  function BuildPage(id: nat, snapshot: Snapshot, offset: nat, limit: nat, items: seq<Feature>): Page {
    var next := offset + |items|;
    Page(items,
         if next < |snapshot.features| then Some(Cursor(id, snapshot.queryHash, next)) else None,
         snapshot.diagnostics.truncated || |items| < Min(limit, |snapshot.features| - offset),
         snapshot.diagnostics.warnings, snapshot.diagnostics.rest, offset)
  }

  predicate Fits(sizes: Sizes, page: Page) {
    sizes.page(page) <= MAX_RESPONSE_BYTES
  }

  /** The page of the first n items at an offset. */
  function PageOf(id: nat, snapshot: Snapshot, offset: nat, limit: nat, n: nat): Page
    requires n <= |Slice(snapshot.features, offset, offset + limit)|
  {
    BuildPage(id, snapshot, offset, limit, Slice(snapshot.features, offset, offset + limit)[..n])
  }

  /** n is the number of items a page carries: the most that fit, or none. */
  ghost predicate Largest(sizes: Sizes, id: nat, snapshot: Snapshot, offset: nat, limit: nat, n: nat) {
    var available := |Slice(snapshot.features, offset, offset + limit)|;
    && n <= available
    && (n > 0 ==> Fits(sizes, PageOf(id, snapshot, offset, limit, n)))
    && (forall m | n < m <= available :: !Fits(sizes, PageOf(id, snapshot, offset, limit, m)))
  }

  /** One page of a snapshot: items are dropped from its end until it fits. */
  method PageResponse(sizes: Sizes, id: nat, snapshot: Snapshot, offset: nat, limit: nat) returns (page: Page)
    ensures exists n: nat :: Largest(sizes, id, snapshot, offset, limit, n) && page == PageOf(id, snapshot, offset, limit, n)
  {
    var features := Slice(snapshot.features, offset, offset + limit);
    ghost var all := features;
    page := BuildPage(id, snapshot, offset, limit, features);
    assert all[..|all|] == all;
    while |features| > 0 && !Fits(sizes, page)
      invariant |features| <= |all| && features == all[..|features|]
      invariant page == PageOf(id, snapshot, offset, limit, |features|)
      invariant forall m | |features| < m <= |all| :: !Fits(sizes, PageOf(id, snapshot, offset, limit, m))
      decreases |features|
    {
      ghost var before := |features|;
      features := features[..|features| - 1];
      assert features == all[..before - 1];
      page := BuildPage(id, snapshot, offset, limit, features);
    }
    assert Largest(sizes, id, snapshot, offset, limit, |features|);
  }

  // ----- following cursors -----

  /** Every page of at most one feature fits. */
  ghost predicate OneFeatureFits(sizes: Sizes) {
    forall page: Page :: |page.features| <= 1 ==> Fits(sizes, page)
  }

  /** pages is what a reader collects by following cursors from an offset to the end. */
  ghost predicate Follows(sizes: Sizes, id: nat, snapshot: Snapshot, offset: nat, limit: nat, pages: seq<Page>)
    decreases |pages|
  {
    pages != [] &&
    (exists n: nat :: Largest(sizes, id, snapshot, offset, limit, n) && pages[0] == PageOf(id, snapshot, offset, limit, n)) &&
    match pages[0].nextCursor
    case None => |pages| == 1
    case Some(cursor) => Follows(sizes, id, snapshot, cursor.offset, limit, pages[1..])
  }

  function Concatenated(pages: seq<Page>): seq<Feature> {
    if pages == [] then [] else pages[0].features + Concatenated(pages[1..])
  }

  /** What the first page says. */
  lemma FirstPage(sizes: Sizes, id: nat, snapshot: Snapshot, offset: nat, limit: nat, pages: seq<Page>) returns (next: nat)
    requires offset <= |snapshot.features| && Follows(sizes, id, snapshot, offset, limit, pages)
    ensures offset <= next <= |snapshot.features| && pages[0].features == snapshot.features[offset..next]
    ensures if next < |snapshot.features| then Follows(sizes, id, snapshot, next, limit, pages[1..]) else |pages| == 1
  {
    var n: nat :| Largest(sizes, id, snapshot, offset, limit, n) && pages[0] == PageOf(id, snapshot, offset, limit, n);
    next := offset + n;
  }

  /** Whatever the pages, together they are the rest of the snapshot: nothing is lost, repeated or reordered. */
  lemma {:induction false} PagingIsLossless(sizes: Sizes, id: nat, snapshot: Snapshot, offset: nat, limit: nat, pages: seq<Page>)
    requires offset <= |snapshot.features| && Follows(sizes, id, snapshot, offset, limit, pages)
    ensures Concatenated(pages) == snapshot.features[offset..]
    decreases |pages|
  {
    var next := FirstPage(sizes, id, snapshot, offset, limit, pages);
    if next < |snapshot.features| {
      PagingIsLossless(sizes, id, snapshot, next, limit, pages[1..]);
    }
    Joined(snapshot.features, offset, next);
    assert Concatenated(pages) == pages[0].features + Concatenated(pages[1..]);
  }

  lemma Joined<T>(s: seq<T>, i: nat, j: nat)
    requires i <= j <= |s|
    ensures s[i..j] + s[j..] == s[i..]
  {
  }

  /** Following cursors ends when one-feature pages fit, and every page but a last one makes progress. */
  lemma {:induction false} PagingEnds(sizes: Sizes, id: nat, snapshot: Snapshot, offset: nat, limit: nat) returns (pages: seq<Page>)
    requires OneFeatureFits(sizes) && limit > 0 && offset <= |snapshot.features|
    ensures Follows(sizes, id, snapshot, offset, limit, pages)
    ensures |pages| <= if offset == |snapshot.features| then 1 else |snapshot.features| - offset
    ensures forall k | 0 <= k < |pages| :: pages[k].nextCursor.Some? ==> pages[k].nextCursor.value.offset > pages[k].offset
    decreases |snapshot.features| - offset
  {
    var n := LargestExists(sizes, id, snapshot, offset, limit);
    var page := PageOf(id, snapshot, offset, limit, n);
    if page.nextCursor.None? {
      pages := [page];
    } else {
      Progresses(sizes, id, snapshot, offset, limit, n);
      var rest := PagingEnds(sizes, id, snapshot, offset + n, limit);
      pages := [page] + rest;
      FollowsOn(sizes, id, snapshot, offset, limit, n, rest);
    }
  }

  lemma FollowsOn(sizes: Sizes, id: nat, snapshot: Snapshot, offset: nat, limit: nat, n: nat, rest: seq<Page>)
    requires Largest(sizes, id, snapshot, offset, limit, n)
    requires var cursor := PageOf(id, snapshot, offset, limit, n).nextCursor;
             cursor.Some? && Follows(sizes, id, snapshot, cursor.value.offset, limit, rest)
    ensures Follows(sizes, id, snapshot, offset, limit, [PageOf(id, snapshot, offset, limit, n)] + rest)
  {
    var pages := [PageOf(id, snapshot, offset, limit, n)] + rest;
    assert pages[1..] == rest;
  }

  lemma Progresses(sizes: Sizes, id: nat, snapshot: Snapshot, offset: nat, limit: nat, n: nat)
    requires OneFeatureFits(sizes) && limit > 0 && offset < |snapshot.features|
    requires Largest(sizes, id, snapshot, offset, limit, n)
    ensures n > 0
  {
    assert Fits(sizes, PageOf(id, snapshot, offset, limit, 1));
  }

  lemma LargestExists(sizes: Sizes, id: nat, snapshot: Snapshot, offset: nat, limit: nat) returns (n: nat)
    ensures Largest(sizes, id, snapshot, offset, limit, n)
  {
    n := |Slice(snapshot.features, offset, offset + limit)|;
    while n > 0 && !Fits(sizes, PageOf(id, snapshot, offset, limit, n))
      invariant n <= |Slice(snapshot.features, offset, offset + limit)|
      invariant forall m | n < m <= |Slice(snapshot.features, offset, offset + limit)| ::
                  !Fits(sizes, PageOf(id, snapshot, offset, limit, m))
    {
      n := n - 1;
    }
  }

  /** A page that is not the last makes progress exactly when some nonempty page at its offset fits;
      otherwise its cursor points back to where it started. */
  lemma ProgressIff(sizes: Sizes, id: nat, snapshot: Snapshot, offset: nat, limit: nat, n: nat)
    requires Largest(sizes, id, snapshot, offset, limit, n)
    requires PageOf(id, snapshot, offset, limit, n).nextCursor.Some?
    ensures var next := PageOf(id, snapshot, offset, limit, n).nextCursor.value.offset;
            var available := |Slice(snapshot.features, offset, offset + limit)|;
            && (next > offset <==> exists m | 0 < m <= available :: Fits(sizes, PageOf(id, snapshot, offset, limit, m)))
            && (next > offset || next == offset)
  {
    assert |PageOf(id, snapshot, offset, limit, n).features| == n;
  }
}
