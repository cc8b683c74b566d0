/** The public listing: keyset pages over a catalogue that changes between requests. */
module Listing {
  import opened Wrappers
  import opened Sorting
  import opened Catalogue

  const MAX_PAGE_SIZE := 100

  /** A row's sort key, and equally a reader's position. */
  datatype Position = Position(published: Option<Instant>, id: JobId)

  /** The listable jobs one request sees, each with its publication date. */
  type Snapshot = map<JobId, Option<Instant>>

  /** Active jobs the reader's filters accept. */
  function Listable(s: State, wanted: (JobId, Job) -> bool): Snapshot {
    map j | j in s.jobs && s.jobs[j].status == Active && wanted(j, s.jobs[j]) ::
      if s.jobs[j].fields.publishedAt.Date? then Some(s.jobs[j].fields.publishedAt.at) else None
  }

  // ---------- The order ----------

  /** Newest first, undated last, then the larger identifier first. */
  predicate Precedes(a: Position, b: Position) {
    match (a.published, b.published)
    case (Some(x), Some(y)) => x > y || (x == y && a.id > b.id)
    case (Some(_), None) => true
    case (None, Some(_)) => false
    case (None, None) => a.id > b.id
  }

  /** The clause a cursor adds to the query, branch by branch. */
  predicate AfterClause(cursor: Position, row: Position) {
    if cursor.published.None? then row.published.None? && row.id < cursor.id
    else
      || row.published.None?
      || row.published.value < cursor.published.value
      || (row.published.value == cursor.published.value && row.id < cursor.id)
  }

  lemma PrecedesIsTotal()
    ensures StrictTotal(Precedes)
  {
  }

  /** The clause selects exactly the rows strictly later in the listing's order. */
  lemma AfterSelectsTheStrictlyLater(cursor: Position, row: Position)
    ensures AfterClause(cursor, row) <==> Precedes(cursor, row)
  {
  }

  // ---------- One request ----------

  function Rows(snapshot: Snapshot): set<Position> {
    set j | j in snapshot :: Position(snapshot[j], j)
  }

  function Ahead(snapshot: Snapshot, cursor: Option<Position>): set<Position> {
    set p | p in Rows(snapshot) && (cursor.Some? ==> AfterClause(cursor.value, p))
  }

  datatype JobPage = JobPage(jobs: seq<Position>, next: Option<Position>)

  function Size(pageSize: int): (size: nat)
    requires pageSize >= 1
    ensures 1 <= size <= MAX_PAGE_SIZE
  {
    if pageSize <= MAX_PAGE_SIZE then pageSize else MAX_PAGE_SIZE
  }

  /** One batch, read with one row to spare to learn whether another exists; no page
      at all for a size below one. */
  function ListJobs(snapshot: Snapshot, cursor: Option<Position>, pageSize: int): (page: Option<JobPage>)
    ensures page.Some? <==> pageSize >= 1
  {
    if pageSize < 1 then None
    else
      PrecedesIsTotal();
      var size := Size(pageSize);
      var sorted := Sorted(Ahead(snapshot, cursor), Precedes);
      var rows := if |sorted| <= size + 1 then sorted else sorted[..size + 1];
      if |rows| <= size then Some(JobPage(rows, None))
      else Some(JobPage(rows[..size], Some(rows[size - 1])))
  }

  /** A batch is the first rows ahead of the cursor, and the next cursor is its last
      row exactly when rows remain. */
  lemma BatchIsTheFirstRows(snapshot: Snapshot, cursor: Option<Position>, pageSize: int)
    requires pageSize >= 1
    ensures StrictTotal(Precedes)
    ensures var page := ListJobs(snapshot, cursor, pageSize).value;
            var sorted := Sorted(Ahead(snapshot, cursor), Precedes);
            if |sorted| <= Size(pageSize) then page == JobPage(sorted, None)
            else page == JobPage(sorted[..Size(pageSize)], Some(sorted[Size(pageSize) - 1]))
  {
    hide Ahead, Precedes, StrictTotal, Sorted;
    PrecedesIsTotal();
    var size := Size(pageSize);
    var sorted := Sorted(Ahead(snapshot, cursor), Precedes);
    if |sorted| > size {
      assert sorted[..size + 1][..size] == sorted[..size];
    }
  }

  /** It holds as many as were asked for, but never more than a hundred, or all there are. */
  lemma BatchHolds(snapshot: Snapshot, cursor: Option<Position>, pageSize: int)
    requires pageSize >= 1
    ensures var jobs, ahead := ListJobs(snapshot, cursor, pageSize).value.jobs, |Ahead(snapshot, cursor)|;
            && (pageSize <= 100 && pageSize <= ahead ==> |jobs| == pageSize)
            && (pageSize > 100 && 100 <= ahead ==> |jobs| == 100)
            && ((ahead < pageSize <= 100 || ahead < 100 < pageSize) ==> |jobs| == ahead)
  {
    BatchIsTheFirstRows(snapshot, cursor, pageSize);
  }

  // ---------- Following cursors ----------

  /** What a reader is shown by following cursors, one snapshot a request. */
  function Shown(snapshots: seq<Snapshot>, cursor: Option<Position>, pageSize: int): seq<Position>
    requires pageSize >= 1
  {
    if snapshots == [] then []
    else
      var page := ListJobs(snapshots[0], cursor, pageSize).value;
      page.jobs + if page.next.None? then [] else Shown(snapshots[1..], page.next, pageSize)
  }

  /** The reader reaches a page without a next cursor. */
  predicate Finishes(snapshots: seq<Snapshot>, cursor: Option<Position>, pageSize: int)
    requires pageSize >= 1
  {
    snapshots != [] &&
    var page := ListJobs(snapshots[0], cursor, pageSize).value;
    page.next.None? || Finishes(snapshots[1..], page.next, pageSize)
  }

  predicate Beyond(cursor: Option<Position>, p: Position) {
    cursor.Some? ==> Precedes(cursor.value, p)
  }

  lemma AheadIsBeyond(snapshot: Snapshot, cursor: Option<Position>, p: Position)
    ensures p in Ahead(snapshot, cursor) <==> p in Rows(snapshot) && Beyond(cursor, p)
  {
    if cursor.Some? { AfterSelectsTheStrictlyLater(cursor.value, p); }
  }

  lemma BatchFacts(snapshot: Snapshot, cursor: Option<Position>, pageSize: int)
    requires pageSize >= 1
    ensures var page := ListJobs(snapshot, cursor, pageSize).value;
            && Ascending(page.jobs, Precedes)
            && (forall p :: p in page.jobs ==> p in Rows(snapshot) && Beyond(cursor, p))
            && (page.next.Some? ==>
                  page.jobs != [] && page.next.value == page.jobs[|page.jobs| - 1])
            && (forall p :: p in Rows(snapshot) && Beyond(cursor, p) && p !in page.jobs ==>
                  page.next.Some? && Precedes(page.next.value, p))
  {
    hide Ahead, Rows, ListJobs, AfterClause, Beyond, Precedes, StrictTotal, Sorted, Size;
    BatchIsTheFirstRows(snapshot, cursor, pageSize);
    var sorted := Sorted(Ahead(snapshot, cursor), Precedes);
    forall p { AheadIsBeyond(snapshot, cursor, p); }
    var page := ListJobs(snapshot, cursor, pageSize).value;
    var size := Size(pageSize);
    if |sorted| > size {
      assert page.next.value == page.jobs[size - 1];
      assert forall p :: p in page.jobs ==> p in sorted;
      forall p | p in sorted && p !in page.jobs ensures Precedes(page.next.value, p) {
        PrefixComesFirst(sorted, Precedes, size, p);
      }
    }
  }

  /** Whatever changes between requests, what the reader is shown only ever goes
      forward, and starts past the cursor. */
  lemma {:induction false} ShownGoesForward(snapshots: seq<Snapshot>, cursor: Option<Position>, pageSize: int)
    requires pageSize >= 1
    ensures Ascending(Shown(snapshots, cursor, pageSize), Precedes)
    ensures forall p :: p in Shown(snapshots, cursor, pageSize) ==> Beyond(cursor, p)
    ensures forall p :: p in Shown(snapshots, cursor, pageSize) ==>
              exists i :: 0 <= i < |snapshots| && p in Rows(snapshots[i])
  {
    if snapshots != [] {
      hide ListJobs, Rows;
      BatchFacts(snapshots[0], cursor, pageSize);
      var page := ListJobs(snapshots[0], cursor, pageSize).value;
      if page.next.Some? {
        ShownGoesForward(snapshots[1..], page.next, pageSize);
        var rest := Shown(snapshots[1..], page.next, pageSize);
        ChainedAscends(page.jobs, rest);
        PrecedesIsTotal();
        assert page.next.value in page.jobs;
        forall p | p in rest ensures exists i :: 0 <= i < |snapshots| && p in Rows(snapshots[i]) {
          var i :| 0 <= i < |snapshots[1..]| && p in Rows(snapshots[1..][i]);
          assert p in Rows(snapshots[i + 1]);
        }
      } else {
        assert Shown(snapshots, cursor, pageSize) == page.jobs;
      }
      assert forall p :: p in page.jobs ==> p in Rows(snapshots[0]);
    }
  }

  lemma ChainedAscends(a: seq<Position>, b: seq<Position>)
    requires Ascending(a, Precedes) && Ascending(b, Precedes) && a != []
    requires forall p :: p in b ==> Precedes(a[|a| - 1], p)
    ensures Ascending(a + b, Precedes)
  {
    PrecedesIsTotal();
    forall i, j | 0 <= i < j < |a + b| ensures Precedes((a + b)[i], (a + b)[j]) {
      if i < |a| <= j {
        assert b[j - |a|] in b;
        assert i == |a| - 1 || Precedes(a[i], a[|a| - 1]);
      }
    }
  }

  /** A job is shown twice only if its publication date changed between two requests. */
  lemma NoJobTwice(snapshots: seq<Snapshot>, pageSize: int, i: nat, j: nat)
    requires pageSize >= 1
    requires i < j < |Shown(snapshots, None, pageSize)|
    requires Shown(snapshots, None, pageSize)[i].id == Shown(snapshots, None, pageSize)[j].id
    ensures var id := Shown(snapshots, None, pageSize)[i].id;
      exists a, b :: 0 <= a < |snapshots| && 0 <= b < |snapshots|
        && id in snapshots[a] && id in snapshots[b] && snapshots[a][id] != snapshots[b][id]
  {
    hide ListJobs;
    ShownGoesForward(snapshots, None, pageSize);
    var shown := Shown(snapshots, None, pageSize);
    assert Precedes(shown[i], shown[j]);
    assert shown[i] in shown && shown[j] in shown;
    var a :| 0 <= a < |snapshots| && shown[i] in Rows(snapshots[a]);
    var b :| 0 <= b < |snapshots| && shown[j] in Rows(snapshots[b]);
  }

  /** A reader who reaches the end was shown every job that stayed listable throughout
      with one date, and by the order exactly once. */
  lemma {:induction false} StayersAreShown(
    snapshots: seq<Snapshot>, cursor: Option<Position>, pageSize: int, p: Position)
    requires pageSize >= 1 && Finishes(snapshots, cursor, pageSize)
    requires Beyond(cursor, p)
    requires forall i :: 0 <= i < |snapshots| ==> p in Rows(snapshots[i])
    ensures p in Shown(snapshots, cursor, pageSize)
  {
    hide ListJobs, Rows;
    BatchFacts(snapshots[0], cursor, pageSize);
    var page := ListJobs(snapshots[0], cursor, pageSize).value;
    assert p in Rows(snapshots[0]);
    if p !in page.jobs {
      StayersAreShown(snapshots[1..], page.next, pageSize, p);
    }
  }

  lemma StayersAreShownOnce(snapshots: seq<Snapshot>, pageSize: int, p: Position)
    requires pageSize >= 1 && Finishes(snapshots, None, pageSize)
    requires forall i :: 0 <= i < |snapshots| ==> p in Rows(snapshots[i])
    ensures exists i :: 0 <= i < |Shown(snapshots, None, pageSize)| && Shown(snapshots, None, pageSize)[i] == p
    ensures forall i :: 0 <= i < |Shown(snapshots, None, pageSize)|
                        && Shown(snapshots, None, pageSize)[i].id == p.id ==>
              forall j :: 0 <= j < |Shown(snapshots, None, pageSize)| && j != i ==>
                Shown(snapshots, None, pageSize)[j].id != p.id
  {
    hide ListJobs, Finishes;
    StayersAreShown(snapshots, None, pageSize, p);
    ShownGoesForward(snapshots, None, pageSize);
    PrecedesIsTotal();
    var shown := Shown(snapshots, None, pageSize);
    forall i | 0 <= i < |shown| && shown[i].id == p.id ensures shown[i] == p {
      assert shown[i] in shown;
      var a :| 0 <= a < |snapshots| && shown[i] in Rows(snapshots[a]);
      assert p in Rows(snapshots[a]);
    }
  }

  /** What each of a reader's requests sees of the catalogue as it changes. */
  function Snapshots(states: seq<State>, wanted: (JobId, Job) -> bool): (snapshots: seq<Snapshot>)
    ensures |snapshots| == |states|
    ensures forall i :: 0 <= i < |states| ==> snapshots[i] == Listable(states[i], wanted)
  {
    seq(|states|, i requires 0 <= i < |states| => Listable(states[i], wanted))
  }

  predicate ActiveAndWanted(s: State, wanted: (JobId, Job) -> bool, j: JobId) {
    j in s.jobs && s.jobs[j].status == Active && wanted(j, s.jobs[j])
  }

  /** Whatever happens to the catalogue between requests: only jobs that were active and
      wanted are shown, and one that is so at every request, with its publication date
      untouched, is shown exactly once to a reader who reaches the end. */
  lemma ActiveThroughoutIsShownOnce(
    states: seq<State>, wanted: (JobId, Job) -> bool, pageSize: int, j: JobId, published: Value)
    requires pageSize >= 1 && Finishes(Snapshots(states, wanted), None, pageSize)
    requires forall i :: 0 <= i < |states| ==>
      ActiveAndWanted(states[i], wanted, j) && states[i].jobs[j].fields.publishedAt == published
    ensures var shown := Shown(Snapshots(states, wanted), None, pageSize);
      && (exists n :: 0 <= n < |shown| && shown[n].id == j)
      && (forall n, k :: 0 <= n < |shown| && 0 <= k < |shown| && shown[n].id == shown[k].id == j ==> n == k)
      && (forall n :: 0 <= n < |shown| ==>
            exists i :: 0 <= i < |states| && ActiveAndWanted(states[i], wanted, shown[n].id))
  {
    hide Finishes, Shown;
    var snapshots := Snapshots(states, wanted);
    var p := Position(if published.Date? then Some(published.at) else None, j);
    forall i | 0 <= i < |snapshots| ensures p in Rows(snapshots[i]) {
      assert ActiveAndWanted(states[i], wanted, j);
      assert snapshots[i][j] == p.published;
    }
    StayersAreShownOnce(snapshots, pageSize, p);
    ShownGoesForward(snapshots, None, pageSize);
    var shown := Shown(snapshots, None, pageSize);
    forall n | 0 <= n < |shown|
      ensures exists i :: 0 <= i < |states| && ActiveAndWanted(states[i], wanted, shown[n].id)
    {
      assert shown[n] in shown;
      var i :| 0 <= i < |snapshots| && shown[n] in Rows(snapshots[i]);
      assert ActiveAndWanted(states[i], wanted, shown[n].id);
    }
  }

  // ---------- A catalogue that stands still ----------

  function Same(snapshot: Snapshot, requests: nat): (snapshots: seq<Snapshot>)
    ensures |snapshots| == requests
    ensures forall i :: 0 <= i < requests ==> snapshots[i] == snapshot
  {
    seq(requests, i => snapshot)
  }

  predicate EnoughRequests(requests: nat, size: nat, rows: nat) {
    requests * size >= rows
  }

  /** Over an unchanging catalogue the pages end within the requests it takes to hold
      every row, and together they are the plain sorted listing. */
  lemma {:induction false} PagingIsSorting(
    snapshot: Snapshot, cursor: Option<Position>, pageSize: int, requests: nat)
    requires pageSize >= 1 && requests >= 1
    requires EnoughRequests(requests, Size(pageSize), |Ahead(snapshot, cursor)|)
    ensures StrictTotal(Precedes)
    ensures Finishes(Same(snapshot, requests), cursor, pageSize)
    ensures Shown(Same(snapshot, requests), cursor, pageSize) == Sorted(Ahead(snapshot, cursor), Precedes)
    decreases requests
  {
    hide ListJobs, Ahead, Precedes, StrictTotal, EnoughRequests, Size, Sorted;
    BatchIsTheFirstRows(snapshot, cursor, pageSize);
    var page := ListJobs(snapshot, cursor, pageSize).value;
    var sorted := Sorted(Ahead(snapshot, cursor), Precedes);
    var all := Same(snapshot, requests);
    var size := Size(pageSize);
    if page.next.Some? {
      var rest := Sorted(Ahead(snapshot, page.next), Precedes);
      RestOfListing(snapshot, cursor, size);
      FewerRequests(requests, size, |sorted|);
      PagingIsSorting(snapshot, page.next, pageSize, requests - 1);
      assert all[1..] == Same(snapshot, requests - 1);
      assert sorted[..size] + sorted[size..] == sorted;
    } else {
      assert Shown(all, cursor, pageSize) == page.jobs;
    }
  }

  lemma FewerRequests(requests: nat, size: nat, rows: nat)
    requires requests >= 1 && rows > size && EnoughRequests(requests, size, rows)
    ensures requests > 1 && EnoughRequests(requests - 1, size, rows - size)
  {
    assert requests * size == (requests - 1) * size + size;
  }

  /** Splitting an ascending listing: what follows an element is what it precedes. */
  lemma SplitAt(sorted: seq<Position>, size: nat, p: Position)
    requires StrictTotal(Precedes) && Ascending(sorted, Precedes) && 1 <= size < |sorted|
    ensures p in sorted[size..] <==> p in sorted && Precedes(sorted[size - 1], p)
  {
    hide Precedes;
    if p in sorted[size..] {
      var i :| size <= i < |sorted| && sorted[i] == p;
    }
    if p in sorted && Precedes(sorted[size - 1], p) {
      var i :| 0 <= i < |sorted| && sorted[i] == p;
      assert forall k :: 0 <= k < size - 1 ==> Precedes(sorted[k], sorted[size - 1]);
      assert forall x, y :: Precedes(x, y) && Precedes(y, x) ==> Precedes(x, x);
      assert size <= i;
      assert sorted[size..][i - size] == p;
    }
  }

  /** What lies past a batch's last row is the rest of the sorted listing. */
  lemma RestOfListing(snapshot: Snapshot, cursor: Option<Position>, size: nat)
    requires StrictTotal(Precedes) && 1 <= size < |Sorted(Ahead(snapshot, cursor), Precedes)|
    ensures var sorted := Sorted(Ahead(snapshot, cursor), Precedes);
            && Sorted(Ahead(snapshot, Some(sorted[size - 1])), Precedes) == sorted[size..]
            && |Ahead(snapshot, Some(sorted[size - 1]))| == |sorted| - size
  {
    hide Ahead, Rows, AfterClause, Precedes, StrictTotal, Sorted;
    var sorted := Sorted(Ahead(snapshot, cursor), Precedes);
    var last := sorted[size - 1];
    var rest := Sorted(Ahead(snapshot, Some(last)), Precedes);
    AheadIsBeyond(snapshot, cursor, last);
    assert last in sorted;
    forall p ensures p in rest <==> p in sorted[size..] {
      AheadIsBeyond(snapshot, cursor, p);
      AheadIsBeyond(snapshot, Some(last), p);
      SplitAt(sorted, size, p);
      BeyondIsTransitive(cursor, last, p);
    }
    AscendingIsUnique(rest, sorted[size..], Precedes);
  }

  lemma BeyondIsTransitive(cursor: Option<Position>, a: Position, b: Position)
    ensures Beyond(cursor, a) && Precedes(a, b) ==> Beyond(cursor, b)
  {
  }
}
