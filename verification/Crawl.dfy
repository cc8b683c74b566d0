/** The checkpointed breadth-first walk over a concept scheme, killed and resumed. */
module Crawl {
  import opened Sets

  type Uri = string

  const CHECKPOINT_EVERY := 400

  /** What the walk knows, and what a checkpoint file holds. */
  datatype Walk = Walk(seen: set<Uri>, concepts: map<Uri, string>, failures: seq<Uri>, frontier: seq<Uri>)

  const NOTHING := Walk({}, map[], [], [])

  /** The remote scheme: each concept's record and its narrower concepts. */
  datatype Scheme = Scheme(record: Uri -> string, children: Uri -> seq<Uri>)

  /** Which requests fail, counted over one run: any pattern at all. */
  type Outages = (nat, Uri) -> bool

  function SetOf(xs: seq<Uri>): set<Uri> { set x | x in xs }

  /** A way from a root, each concept narrower than the one before. */
  predicate Path(scheme: Scheme, roots: seq<Uri>, path: seq<Uri>) {
    && path != [] && path[0] in roots
    && forall i :: 0 < i < |path| ==> path[i] in scheme.children(path[i - 1])
  }

  ghost predicate Reaches(scheme: Scheme, roots: seq<Uri>, u: Uri) {
    exists path :: Path(scheme, roots, path) && path[|path| - 1] == u
  }

  /** Holds exactly what the roots lead to. */
  ghost predicate AllReachable(scheme: Scheme, roots: seq<Uri>, universe: set<Uri>) {
    forall u :: u in universe <==> Reaches(scheme, roots, u)
  }

  /** Holds the roots and, with each concept, its narrower concepts. */
  predicate Closed(scheme: Scheme, roots: seq<Uri>, universe: set<Uri>) {
    && SetOf(roots) <= universe
    && forall u :: u in universe ==> SetOf(scheme.children(u)) <= universe
  }

  /** Everything met so far is accounted for: each seen concept was fetched or failed,
      each fetched record is the scheme's, and what has been found but not visited is
      still ahead. */
  predicate Accounted(scheme: Scheme, roots: seq<Uri>, walk: Walk, ahead: set<Uri>) {
    && walk.seen == walk.concepts.Keys + SetOf(walk.failures)
    && SetOf(roots) <= walk.seen + ahead
    && forall u :: u in walk.concepts ==>
         walk.concepts[u] == scheme.record(u) && SetOf(scheme.children(u)) <= walk.seen + ahead
  }

  /** What every checkpoint written by a walk of this scheme satisfies. */
  predicate Resumable(scheme: Scheme, roots: seq<Uri>, universe: set<Uri>, walk: Walk) {
    walk == NOTHING
    || (Accounted(scheme, roots, walk, SetOf(walk.frontier))
        && walk.seen <= universe && SetOf(walk.frontier) <= universe)
  }

  /** The finished walk: nothing left ahead. */
  predicate Complete(scheme: Scheme, roots: seq<Uri>, universe: set<Uri>, walk: Walk) {
    Accounted(scheme, roots, walk, {}) && walk.seen <= universe
  }

  lemma ReachableIsClosed(scheme: Scheme, roots: seq<Uri>, universe: set<Uri>)
    requires AllReachable(scheme, roots, universe)
    ensures Closed(scheme, roots, universe)
  {
    forall u | u in roots ensures u in universe {
      assert Path(scheme, roots, [u]) && [u][|[u]| - 1] == u;
    }
    forall u, c | u in universe && c in scheme.children(u) ensures c in universe {
      var path :| Path(scheme, roots, path) && path[|path| - 1] == u;
      var longer := path + [c];
      assert Path(scheme, roots, longer) && longer[|longer| - 1] == c;
    }
  }

  /** On every way to a concept the finished walk has not fetched, something failed. */
  lemma {:induction false} FetchedOrBehindAFailure(scheme: Scheme, roots: seq<Uri>, walk: Walk, path: seq<Uri>)
    requires Accounted(scheme, roots, walk, {}) && Path(scheme, roots, path)
    ensures path[|path| - 1] in walk.concepts || exists i :: 0 <= i < |path| && path[i] in walk.failures
    decreases |path|
  {
    var last := |path| - 1;
    if last == 0 {
      assert path[0] in SetOf(roots);
    } else {
      var before := path[..last];
      FetchedOrBehindAFailure(scheme, roots, walk, before);
      if before[last - 1] in walk.concepts { assert path[last] in SetOf(scheme.children(path[last - 1])); }
      else {
        var i :| 0 <= i < |before| && before[i] in walk.failures;
        assert path[i] in walk.failures;
      }
    }
  }

  /** A finished walk without a failure has fetched exactly what the roots lead to. */
  lemma NothingMissing(scheme: Scheme, roots: seq<Uri>, universe: set<Uri>, walk: Walk)
    requires Complete(scheme, roots, universe, walk) && AllReachable(scheme, roots, universe) && walk.failures == []
    ensures walk.concepts.Keys == universe
  {
    forall u | u in universe ensures u in walk.concepts {
      var path :| Path(scheme, roots, path) && path[|path| - 1] == u;
      FetchedOrBehindAFailure(scheme, roots, walk, path);
    }
  }

  // ---------- What the network has to do with it ----------

  /** The uris some request for which failed, and those some request for which was answered. */
  ghost function Down(outages: Outages): iset<Uri> { iset u, n: nat | outages(n, u) :: u }

  ghost function Up(outages: Outages): iset<Uri> { iset u, n: nat | !outages(n, u) :: u }

  /** Nothing is forgotten, what failed since was down and what was fetched since was up. */
  ghost predicate Explained(before: Walk, after: Walk, down: iset<Uri>, up: iset<Uri>) {
    && before.failures <= after.failures
    && (forall i :: |before.failures| <= i < |after.failures| ==> after.failures[i] in down)
    && before.concepts.Keys <= after.concepts.Keys
    && (forall u :: u in after.concepts && u !in before.concepts ==> u in up)
  }

  /** A checkpoint holds the walk, whatever its frontier. */
  predicate SavedIs(saved: Walk, walk: Walk) {
    saved.(frontier := walk.frontier) == walk
  }

  lemma NothingToExplain(walk: Walk, down: iset<Uri>, up: iset<Uri>)
    ensures Explained(walk, walk, down, up)
  {
  }

  lemma SavedExplains(before: Walk, walk: Walk, saved: Walk, down: iset<Uri>, up: iset<Uri>)
    requires Explained(before, walk, down, up) && SavedIs(saved, walk)
    ensures Explained(before, saved, down, up)
  {
  }

  /** A walk through which nothing was down has not failed at anything. */
  lemma NothingFailed(before: Walk, after: Walk, down: iset<Uri>, up: iset<Uri>)
    requires Explained(before, after, down, up) && before.failures == [] && down == iset{}
    ensures after.failures == []
  {
    if after.failures != [] { SomethingWasDown(before, after, down, up); }
  }

  lemma SomethingWasDown(before: Walk, after: Walk, down: iset<Uri>, up: iset<Uri>)
    requires Explained(before, after, down, up) && before.failures == [] && after.failures != []
    ensures exists u :: u in down
  {
    assert after.failures[0] in down;
  }

  lemma AlwaysUp(
    scheme: Scheme, roots: seq<Uri>, outages: Outages, universe: set<Uri>, before: Walk, after: Walk)
    requires Complete(scheme, roots, universe, after) && AllReachable(scheme, roots, universe)
    requires Explained(before, after, Down(outages), Up(outages))
    ensures before.failures == [] && (forall n: nat, u :: !outages(n, u)) ==>
      after.failures == [] && after.concepts.Keys == universe
  {
    if before.failures == [] && (forall n: nat, u :: !outages(n, u)) {
      NothingFailed(before, after, Down(outages), Up(outages));
      NothingMissing(scheme, roots, universe, after);
    }
  }

  /** The same over a series of runs, each with its own outages. */
  ghost function DownEver(outages: nat -> Outages): iset<Uri> { iset u, i: nat, n: nat | outages(i)(n, u) :: u }

  ghost function UpEver(outages: nat -> Outages): iset<Uri> { iset u, i: nat, n: nat | !outages(i)(n, u) :: u }

  lemma ExplainedByOneRun(outages: nat -> Outages, i: nat, before: Walk, after: Walk)
    requires Explained(before, after, Down(outages(i)), Up(outages(i)))
    ensures Explained(before, after, DownEver(outages), UpEver(outages))
  {
    forall u | u in Down(outages(i)) ensures u in DownEver(outages) {
      var n: nat :| outages(i)(n, u);
      assert outages(i)(n, u);
    }
    forall u | u in Up(outages(i)) ensures u in UpEver(outages) {
      var n: nat :| !outages(i)(n, u);
      assert !outages(i)(n, u);
    }
  }

  lemma AlwaysUpEver(
    scheme: Scheme, roots: seq<Uri>, outages: nat -> Outages, universe: set<Uri>,
    before: Walk, saved: Walk, after: Walk)
    requires Complete(scheme, roots, universe, after) && AllReachable(scheme, roots, universe)
    requires Explained(before, saved, DownEver(outages), UpEver(outages)) && SavedIs(saved, after)
    ensures before.failures == [] && (forall i: nat, n: nat, u :: !outages(i)(n, u)) ==>
      after.failures == [] && after.concepts.Keys == universe
  {
    if before.failures == [] && (forall i: nat, n: nat, u :: !outages(i)(n, u)) {
      NothingFailed(before, saved, DownEver(outages), UpEver(outages));
      NothingMissing(scheme, roots, universe, after);
    }
  }

  lemma ExplainedTogether(a: Walk, b: Walk, c: Walk, down: iset<Uri>, up: iset<Uri>)
    requires Explained(a, b, down, up) && Explained(b, c, down, up)
    ensures Explained(a, c, down, up)
  {
    assert forall i :: |a.failures| <= i < |b.failures| ==> c.failures[i] == b.failures[i];
  }

  function Unseen(uris: seq<Uri>, seen: set<Uri>): (pending: seq<Uri>)
    ensures forall u :: u in pending <==> u in uris && u !in seen
    ensures |pending| <= |uris|
  {
    if uris == [] then []
    else (if uris[0] in seen then [] else [uris[0]]) + Unseen(uris[1..], seen)
  }

  /** Some request of the slice was for this concept and failed. */
  predicate Refused(outages: Outages, visits: nat, slice: seq<Uri>, u: Uri) {
    exists i :: 0 <= i < |slice| && slice[i] == u && outages(visits + i, u)
  }

  /** Some request of the slice was for this concept and was answered. */
  predicate Answered(outages: Outages, visits: nat, slice: seq<Uri>, u: Uri) {
    exists i :: 0 <= i < |slice| && slice[i] == u && !outages(visits + i, u)
  }

  lemma OneMoreRequest(outages: Outages, visits: nat, slice: seq<Uri>, n: nat, u: Uri)
    requires n < |slice|
    ensures Refused(outages, visits, slice[..n + 1], u)
       <==> Refused(outages, visits, slice[..n], u) || (u == slice[n] && outages(visits + n, u))
    ensures Answered(outages, visits, slice[..n + 1], u)
       <==> Answered(outages, visits, slice[..n], u) || (u == slice[n] && !outages(visits + n, u))
  {
    var before, more := slice[..n], slice[..n + 1];
    assert forall i :: 0 <= i < n ==> more[i] == before[i];
    assert more[n] == slice[n];
  }

  lemma RefusedOrAnswered(outages: Outages, visits: nat, slice: seq<Uri>, u: Uri)
    ensures u in slice <==> Refused(outages, visits, slice, u) || Answered(outages, visits, slice, u)
  {
    if u in slice {
      var i :| 0 <= i < |slice| && slice[i] == u;
      assert outages(visits + i, u) || !outages(visits + i, u);
    }
  }

  /** Visit one slice: each request fetches a record and finds its children, or fails. */
  method VisitSlice(scheme: Scheme, outages: Outages, visits: nat, slice: seq<Uri>, walk: Walk)
    returns (after: Walk, found: seq<Uri>)
    ensures after.seen == walk.seen + SetOf(slice) && after.frontier == walk.frontier
    ensures walk.failures <= after.failures
    ensures forall u :: u in after.failures[|walk.failures|..] <==> Refused(outages, visits, slice, u)
    ensures forall u :: u in after.concepts <==> u in walk.concepts || Answered(outages, visits, slice, u)
    ensures walk.concepts.Keys <= after.concepts.Keys <= walk.concepts.Keys + SetOf(slice)
    ensures walk.seen == walk.concepts.Keys + SetOf(walk.failures) ==>
              after.seen == after.concepts.Keys + SetOf(after.failures)
    ensures forall u :: u in after.concepts ==>
              (u in walk.concepts && after.concepts[u] == walk.concepts[u]) || after.concepts[u] == scheme.record(u)
    ensures forall u :: u in after.concepts && u !in walk.concepts ==>
              after.concepts[u] == scheme.record(u) && SetOf(scheme.children(u)) <= SetOf(found)
    ensures forall c :: c in found ==> exists u :: u in slice && c in scheme.children(u)
  {
    hide Refused, Answered;
    var concepts, failed := walk.concepts, [];
    found := [];
    NothingRequested(outages, visits, slice);
    for i := 0 to |slice|
      invariant forall u :: u in failed <==> Refused(outages, visits, slice[..i], u)
      invariant forall u :: u in concepts <==> u in walk.concepts || Answered(outages, visits, slice[..i], u)
      invariant forall u :: u in concepts ==>
        (u in walk.concepts && concepts[u] == walk.concepts[u]) || concepts[u] == scheme.record(u)
      invariant forall u :: u in concepts && u !in walk.concepts ==>
        concepts[u] == scheme.record(u) && SetOf(scheme.children(u)) <= SetOf(found)
      invariant forall c :: c in found ==> exists u :: u in slice && c in scheme.children(u)
    {
      var uri := slice[i];
      forall u { OneMoreRequest(outages, visits, slice, i, u); }
      JoinedSets(found, scheme.children(uri));
      if outages(visits + i, uri) {
        failed := failed + [uri];
      } else {
        concepts := concepts[uri := scheme.record(uri)];
        assert uri in slice;
        found := found + scheme.children(uri);
      }
    }
    assert slice[..|slice|] == slice;
    JoinedSets(walk.failures, failed);
    forall u { RefusedOrAnswered(outages, visits, slice, u); }
    after := Walk(walk.seen + SetOf(slice), concepts, walk.failures + failed, walk.frontier);
  }

  lemma NothingRequested(outages: Outages, visits: nat, slice: seq<Uri>)
    ensures forall u :: !Refused(outages, visits, slice[..0], u) && !Answered(outages, visits, slice[..0], u)
  {
  }

  /** A visited slice moves from what is ahead to what is seen, and its children join
      what is ahead. */
  lemma SliceIsAccounted(
    scheme: Scheme, roots: seq<Uri>, universe: set<Uri>,
    before: Walk, after: Walk, slice: seq<Uri>, found: seq<Uri>, ahead: set<Uri>)
    requires Accounted(scheme, roots, before, SetOf(slice) + ahead)
    requires after.seen == before.seen + SetOf(slice)
    requires after.seen == after.concepts.Keys + SetOf(after.failures)
    requires forall u :: u in after.concepts && u in before.concepts ==>
               after.concepts[u] == before.concepts[u] || after.concepts[u] == scheme.record(u)
    requires forall u :: u in after.concepts && u !in before.concepts ==>
               after.concepts[u] == scheme.record(u) && SetOf(scheme.children(u)) <= SetOf(found)
    ensures Accounted(scheme, roots, after, ahead + SetOf(found))
  {
  }

  lemma SliceIsExplained(outages: Outages, visits: nat, slice: seq<Uri>, before: Walk, after: Walk)
    requires before.failures <= after.failures
    requires forall u :: u in after.failures[|before.failures|..] ==> Refused(outages, visits, slice, u)
    requires forall u :: u in after.concepts <==> u in before.concepts || Answered(outages, visits, slice, u)
    ensures Explained(before, after, Down(outages), Up(outages))
  {
    var n := |before.failures|;
    forall i | n <= i < |after.failures| ensures after.failures[i] in Down(outages) {
      assert after.failures[i] == after.failures[n..][i - n];
      assert Refused(outages, visits, slice, after.failures[i]);
    }
    forall u | u in after.concepts && u !in before.concepts ensures u in Up(outages) {
      assert Answered(outages, visits, slice, u);
    }
  }

  /** A walk under way, with `ahead` still to visit. */
  predicate UnderWay(scheme: Scheme, roots: seq<Uri>, universe: set<Uri>, walk: Walk, ahead: set<Uri>) {
    Accounted(scheme, roots, walk, ahead) && walk.seen <= universe && ahead <= universe
  }

  lemma CheckpointIsResumable(
    scheme: Scheme, roots: seq<Uri>, universe: set<Uri>, walk: Walk, remaining: seq<Uri>, discovered: seq<Uri>)
    requires UnderWay(scheme, roots, universe, walk, SetOf(remaining) + SetOf(discovered))
    ensures Resumable(scheme, roots, universe, walk.(frontier := remaining + discovered))
  {
    JoinedSets(remaining, discovered);
  }

  lemma StartIsUnderWay(scheme: Scheme, roots: seq<Uri>, universe: set<Uri>, walk: Walk)
    requires Closed(scheme, roots, universe) && Resumable(scheme, roots, universe, walk)
    ensures UnderWay(scheme, roots, universe, walk, SetOf(if walk.frontier != [] then walk.frontier else roots))
  {
  }

  /** Only what is not yet seen needs visiting. */
  lemma PendingIsEnough(scheme: Scheme, roots: seq<Uri>, universe: set<Uri>, walk: Walk, uris: seq<Uri>)
    requires UnderWay(scheme, roots, universe, walk, SetOf(uris))
    ensures UnderWay(scheme, roots, universe, walk, SetOf(Unseen(uris, walk.seen)))
  {
  }

  class Crawler {
    /** The checkpoint file; an absent file reads as an empty walk. */
    var checkpoint: Walk

    constructor ()
      ensures checkpoint == NOTHING
    {
      checkpoint := NOTHING;
    }

    /** Visit the next slice of a level and save what that leaves. */
    method OneSlice(
      scheme: Scheme, roots: seq<Uri>, outages: Outages, visits: nat, state: Walk,
      pending: seq<Uri>, start: nat, discovered: seq<Uri>, ghost universe: set<Uri>)
      returns (after: Walk, discovered': seq<Uri>, end: nat)
      requires Closed(scheme, roots, universe) && start < |pending|
      requires UnderWay(scheme, roots, universe, state, SetOf(pending[start..]) + SetOf(discovered))
      modifies this
      ensures start < end <= |pending| && end - start <= 400 && (end < |pending| ==> end - start == 400)
      ensures after.seen == state.seen + SetOf(pending[start..end])
      ensures UnderWay(scheme, roots, universe, after, SetOf(pending[end..]) + SetOf(discovered'))
      ensures checkpoint == after.(frontier := pending[end..] + discovered')
      ensures Resumable(scheme, roots, universe, checkpoint)
      ensures Explained(state, after, Down(outages), Up(outages))
    {
      hide Resumable, Explained, Refused, Answered;
      end := if start + CHECKPOINT_EVERY < |pending| then start + CHECKPOINT_EVERY else |pending|;
      var slice := pending[start..end];
      var found;
      after, found := VisitSlice(scheme, outages, visits, slice, state);
      SliceIsExplained(outages, visits, slice, state, after);
      SplitPending(pending, start, end);
      SliceIsAccounted(scheme, roots, universe, state, after, slice, found,
                       SetOf(pending[end..]) + SetOf(discovered));
      FoundInUniverse(scheme, roots, universe, slice, found);
      JoinedSets(discovered, found);
      discovered' := discovered + found;
      assert SetOf(pending[end..]) + SetOf(discovered) + SetOf(found) == SetOf(pending[end..]) + SetOf(discovered');
      CheckpointIsResumable(scheme, roots, universe, after, pending[end..], discovered');
      checkpoint := after.(frontier := pending[end..] + discovered');
    }

    /** One level of the walk, a checkpoint after every slice of it. */
    method OneLevel(
      scheme: Scheme, roots: seq<Uri>, outages: Outages, visits: nat, state: Walk,
      pending: seq<Uri>, lives: nat, ghost universe: set<Uri>)
      returns (killed: bool, after: Walk, discovered: seq<Uri>, visits': nat, lives': nat)
      requires Closed(scheme, roots, universe)
      requires UnderWay(scheme, roots, universe, state, SetOf(pending))
      requires Resumable(scheme, roots, universe, checkpoint) && SavedIs(checkpoint, state)
      requires forall u :: u in pending ==> u !in state.seen
      modifies this
      ensures Resumable(scheme, roots, universe, checkpoint) && SavedIs(checkpoint, after)
      ensures Explained(state, after, Down(outages), Up(outages))
      ensures state.seen <= after.seen && lives' <= lives
      ensures lives' < lives ==> state.seen < after.seen
      ensures killed ==> lives' == 0
      ensures after.seen <= universe
      ensures !killed ==> UnderWay(scheme, roots, universe, after, SetOf(discovered))
      ensures !killed && pending != [] ==> state.seen < after.seen
      ensures pending == [] ==> !killed && discovered == [] && after == state && lives' == lives
    {
      hide Resumable, Accounted, Explained;
      after, discovered, visits', lives', killed := state, [], visits, lives, false;
      NothingToExplain(state, Down(outages), Up(outages));
      var start := 0;
      assert SetOf(pending[0..]) + SetOf(discovered) == SetOf(pending);
      while start < |pending|
        invariant 0 <= start <= |pending|
        invariant UnderWay(scheme, roots, universe, after, SetOf(pending[start..]) + SetOf(discovered))
        invariant Resumable(scheme, roots, universe, checkpoint) && SavedIs(checkpoint, after)
        invariant Explained(state, after, Down(outages), Up(outages))
        invariant state.seen <= after.seen && lives' <= lives
        invariant start > 0 ==> state.seen < after.seen
        invariant lives' < lives ==> start > 0
        invariant start == 0 ==> after == state && discovered == [] && lives' == lives
      {
        if lives' == 0 {
          killed := true;
          SeenIsAhead(scheme, roots, universe, after, SetOf(pending[start..]) + SetOf(discovered));
          return;
        }
        var next, more, end := OneSlice(scheme, roots, outages, visits', after, pending, start, discovered, universe);
        ExplainedTogether(state, after, next, Down(outages), Up(outages));
        assert start == 0 ==> pending[0] in SetOf(pending[start..end]) by {
          assert pending[start] in pending[start..end];
        }
        assert start == 0 ==> pending[0] !in after.seen;
        after, discovered, visits', lives' := next, more, visits' + (end - start), lives' - 1;
        start := end;
      }
      assert SetOf(pending[start..]) + SetOf(discovered) == SetOf(discovered);
      SeenIsAhead(scheme, roots, universe, after, SetOf(discovered));
    }

    /** One run from the last checkpoint, killed once it has completed `lifetime` slices
        if there is still one to do. Whatever happens, the checkpoint it leaves is one a
        later run can finish from, it forgets nothing seen, and a run that completed a
        slice saw something new. A run that is not killed ends with everything reachable
        through what it could fetch, and nothing else. It fetches only what was up and fails
        only at what was down, so that without outages a whole walk fetches exactly what the
        roots lead to. */
    method Run(
      scheme: Scheme, roots: seq<Uri>, outages: Outages, lifetime: nat, ghost universe: set<Uri>)
      returns (finished: bool, result: Walk)
      requires AllReachable(scheme, roots, universe)
      requires Resumable(scheme, roots, universe, checkpoint)
      modifies this
      ensures Resumable(scheme, roots, universe, checkpoint)
      ensures old(checkpoint).seen <= checkpoint.seen <= universe
      ensures finished ==> Complete(scheme, roots, universe, result) && SavedIs(checkpoint, result)
      ensures Explained(old(checkpoint), checkpoint, Down(outages), Up(outages))
      ensures finished && old(checkpoint).failures == [] && (forall n: nat, u :: !outages(n, u)) ==>
        result.failures == [] && result.concepts.Keys == universe
      ensures !finished && lifetime >= 1 ==> old(checkpoint).seen < checkpoint.seen
    {
      hide Resumable, Accounted, Closed, AllReachable, Explained, Complete;
      ReachableIsClosed(scheme, roots, universe);
      NothingToExplain(checkpoint, Down(outages), Up(outages));
      var state := checkpoint;
      var frontier := if state.frontier != [] then state.frontier else roots;
      StartIsUnderWay(scheme, roots, universe, state);
      var visits: nat, lives: nat := 0, lifetime;
      while frontier != []
        invariant UnderWay(scheme, roots, universe, state, SetOf(frontier))
        invariant Resumable(scheme, roots, universe, checkpoint) && SavedIs(checkpoint, state)
        invariant Explained(old(checkpoint), state, Down(outages), Up(outages))
        invariant old(checkpoint).seen <= state.seen && lives <= lifetime
        invariant lives < lifetime ==> old(checkpoint).seen < state.seen
        decreases universe - state.seen, |frontier|
      {
        var pending := Unseen(frontier, state.seen);
        PendingIsEnough(scheme, roots, universe, state, frontier);
        ghost var was, before := state, state.seen;
        var killed, discovered;
        killed, state, discovered, visits, lives :=
          OneLevel(scheme, roots, outages, visits, state, pending, lives, universe);
        ExplainedTogether(old(checkpoint), was, state, Down(outages), Up(outages));
        if killed {
          SavedExplains(old(checkpoint), state, checkpoint, Down(outages), Up(outages));
          return false, state;
        }
        PendingIsEnough(scheme, roots, universe, state, discovered);
        assert before < state.seen ==> universe - state.seen < universe - before;
        frontier := Unseen(discovered, state.seen);
      }
      NothingAhead(scheme, roots, universe, state);
      SavedExplains(old(checkpoint), state, checkpoint, Down(outages), Up(outages));
      AlwaysUp(scheme, roots, outages, universe, old(checkpoint), state);
      finished, result := true, state;
    }

    /** Runs one after the other, each killed after its own number of slices, perhaps before
        the first, until one is not. With more runs that complete a slice than there are
        concepts, one is not. */
    method RunThroughKills(
      scheme: Scheme, roots: seq<Uri>, outages: nat -> Outages, lifetimes: seq<nat>, ghost universe: set<Uri>)
      returns (finished: bool, result: Walk)
      requires AllReachable(scheme, roots, universe)
      requires Resumable(scheme, roots, universe, checkpoint)
      modifies this
      ensures Resumable(scheme, roots, universe, checkpoint)
      ensures old(checkpoint).seen <= checkpoint.seen <= universe
      ensures finished ==> Complete(scheme, roots, universe, result) && SavedIs(checkpoint, result)
      ensures Explained(old(checkpoint), checkpoint, DownEver(outages), UpEver(outages))
      ensures finished && old(checkpoint).failures == [] && (forall i: nat, n: nat, u :: !outages(i)(n, u)) ==>
        result.failures == [] && result.concepts.Keys == universe
      ensures Productive(lifetimes) > |universe| ==> finished
    {
      hide Resumable, Accounted, Closed, AllReachable, Explained, Complete, Productive;
      finished, result := false, checkpoint;
      NothingToExplain(checkpoint, DownEver(outages), UpEver(outages));
      NothingProductive(lifetimes);
      SeenIsKnown(scheme, roots, universe, checkpoint);
      for i := 0 to |lifetimes|
        invariant !finished
        invariant Resumable(scheme, roots, universe, checkpoint)
        invariant old(checkpoint).seen <= checkpoint.seen <= universe
        invariant Explained(old(checkpoint), checkpoint, DownEver(outages), UpEver(outages))
        invariant Productive(lifetimes[..i]) <= |checkpoint.seen|
      {
        ghost var was, before := checkpoint, checkpoint.seen;
        finished, result := Run(scheme, roots, outages(i), lifetimes[i], universe);
        ExplainedByOneRun(outages, i, was, checkpoint);
        ExplainedTogether(old(checkpoint), was, checkpoint, DownEver(outages), UpEver(outages));
        if finished {
          AlwaysUpEver(scheme, roots, outages, universe, old(checkpoint), checkpoint, result);
          return;
        }
        SubsetIsNoLarger(before, checkpoint.seen);
        OneMoreProductive(lifetimes, i);
      }
      assert lifetimes[..|lifetimes|] == lifetimes;
      SubsetIsNoLarger(checkpoint.seen, universe);
    }
  }

  /** How many of the runs last for at least one slice. */
  function Productive(lifetimes: seq<nat>): nat {
    if lifetimes == [] then 0
    else
      var last := |lifetimes| - 1;
      Productive(lifetimes[..last]) + if lifetimes[last] >= 1 then 1 else 0
  }

  lemma NothingProductive(lifetimes: seq<nat>)
    ensures Productive(lifetimes[..0]) == 0
  {
  }

  lemma OneMoreProductive(lifetimes: seq<nat>, i: nat)
    requires i < |lifetimes|
    ensures Productive(lifetimes[..i + 1]) == Productive(lifetimes[..i]) + if lifetimes[i] >= 1 then 1 else 0
  {
    assert lifetimes[..i + 1][..i] == lifetimes[..i];
  }

  lemma SeenIsKnown(scheme: Scheme, roots: seq<Uri>, universe: set<Uri>, walk: Walk)
    requires Resumable(scheme, roots, universe, walk)
    ensures walk.seen <= universe
  {
  }

  lemma SplitPending(pending: seq<Uri>, start: nat, end: nat)
    requires start <= end <= |pending|
    ensures SetOf(pending[start..]) == SetOf(pending[start..end]) + SetOf(pending[end..])
    ensures SetOf(pending[start..end]) <= SetOf(pending) && SetOf(pending[end..]) <= SetOf(pending)
  {
    assert pending[start..] == pending[start..end] + pending[end..];
  }

  lemma JoinedSets(a: seq<Uri>, b: seq<Uri>)
    ensures SetOf(a + b) == SetOf(a) + SetOf(b)
  {
  }

  lemma FoundInUniverse(scheme: Scheme, roots: seq<Uri>, universe: set<Uri>, slice: seq<Uri>, found: seq<Uri>)
    requires Closed(scheme, roots, universe) && SetOf(slice) <= universe
    requires forall c :: c in found ==> exists u :: u in slice && c in scheme.children(u)
    ensures SetOf(found) <= universe
  {
    forall c | c in found ensures c in universe {
      var u :| u in slice && c in scheme.children(u);
      assert u in universe && c in SetOf(scheme.children(u));
    }
  }

  lemma SeenIsAhead(scheme: Scheme, roots: seq<Uri>, universe: set<Uri>, walk: Walk, ahead: set<Uri>)
    requires UnderWay(scheme, roots, universe, walk, ahead)
    ensures walk.seen <= universe
  {
  }

  lemma NothingAhead(scheme: Scheme, roots: seq<Uri>, universe: set<Uri>, walk: Walk)
    requires UnderWay(scheme, roots, universe, walk, SetOf([]))
    ensures Complete(scheme, roots, universe, walk)
  {
    assert SetOf([]) == {};
  }
}
