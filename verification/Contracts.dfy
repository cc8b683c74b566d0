/** What one ingestion run reports about itself. */
module Contracts {
  import opened Wrappers
  import opened Catalogue

  datatype Stage = Fetch | Validate | Normalize | Store

  predicate RejectedBeforeStoring(stage: Stage) {
    stage == Validate || stage == Normalize
  }

  function Rejected(failures: seq<Stage>): (n: nat)
    ensures n <= |failures|
  {
    if failures == [] then 0
    else (if RejectedBeforeStoring(failures[0]) then 1 else 0) + Rejected(failures[1..])
  }

  lemma {:induction false} RejectedOfConcat(a: seq<Stage>, b: seq<Stage>)
    ensures Rejected(a + b) == Rejected(a) + Rejected(b)
  {
    if a == [] {
      assert a + b == b;
    } else {
      RejectedOfConcat(a[1..], b);
      assert (a + b)[1..] == a[1..] + b;
    }
  }

  datatype Summary = Summary(
    source: SourceKey,
    fetched: nat,
    created: nat,
    updated: nat,
    skipped: nat,
    failures: seq<Stage>,
    reachedTheEnd: bool,
    stoppedAtBudget: bool,
    retireUnseenAfter: Option<nat>)
  {
    function Persisted(): nat { created + updated }

    predicate ProcessingComplete() { fetched == Persisted() + skipped && failures == [] }

    predicate AccountedFor() { fetched == Persisted() + skipped + Rejected(failures) }

    predicate SourceExhausted() { reachedTheEnd && !stoppedAtBudget && ProcessingComplete() }
  }
}
