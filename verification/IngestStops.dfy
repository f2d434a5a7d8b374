/** What an ingest reports when it does not reach its end (catalog_ingest.py, `ingest_ids`). */
module IngestStops {
  import opened Basics
  import opened CatalogIngest

  /** The first `m` targets, taken alone, finish with these counts and leave these titles stored. */
  ghost predicate FinishesWith(
    counts: Tallies, titles: set<int>, rest: seq<Option<Payload>>, tries: nat -> (Attempt, Attempt), b: nat, size: nat,
    m: nat, done: Tallies, stored: set<int>)
    requires size > 0
  {
    m <= |rest| && Ingest(counts, titles, rest[..m], tries, b, size) == (Finished(done), stored)
  }

  lemma NothingYet(counts: Tallies, titles: set<int>, rest: seq<Option<Payload>>, tries: nat -> (Attempt, Attempt),
                   b: nat, size: nat)
    requires size > 0
    ensures FinishesWith(counts, titles, rest, tries, b, size, 0, counts, titles)
  {}

  /** One passed batch in front of what finishes. */
  lemma OneMoreBatch(
    counts: Tallies, titles: set<int>, rest: seq<Option<Payload>>, tries: nat -> (Attempt, Attempt), b: nat, size: nat,
    more: Tallies, middle: set<int>, m: nat, done: Tallies, stored: set<int>)
    requires size > 0 && rest != []
    requires BatchWithRetry(titles, rest[..Min(size, |rest|)], tries(b)) == (Passed(more), middle)
    requires FinishesWith(Add(counts, more), middle, rest[Min(size, |rest|)..], tries, b + 1, size, m, done, stored)
    ensures FinishesWith(counts, titles, rest, tries, b, size, Min(size, |rest|) + m, done, stored)
  {
    var k := Min(size, |rest|);
    var front := rest[..k + m];
    assert front == rest[..k] + rest[k..][..m];
    IngestStep(counts, titles, front, tries, b, size, rest[..k], rest[k..][..m]);
  }

  /** A lost connection, or a commit that fails otherwise, ends the run: reported are exactly the creations and updates
      of the batches before it, and their titles are stored. */
  lemma {:induction false} StopReportsFinished(
    counts: Tallies, titles: set<int>, rest: seq<Option<Payload>>, tries: nat -> (Attempt, Attempt), b: nat, size: nat)
    returns (m: nat, done: Tallies, kept: set<int>)
    requires size > 0 && !Ingest(counts, titles, rest, tries, b, size).0.Finished?
    ensures FinishesWith(counts, titles, rest, tries, b, size, m, done, kept)
    ensures var (out, stored) := Ingest(counts, titles, rest, tries, b, size);
            kept <= stored && (out == ConnectionLost(done.created, done.updated) || out == CommitFailed)
    decreases |rest|
  {
    var k := Min(size, |rest|);
    var (end, middle) := BatchWithRetry(titles, rest[..k], tries(b));
    if end.Passed? {
      m, done, kept := StopReportsFinished(Add(counts, end.counts), middle, rest[k..], tries, b + 1, size);
      OneMoreBatch(counts, titles, rest, tries, b, size, end.counts, middle, m, done, kept);
      m := k + m;
    } else {
      m, done, kept := 0, counts, titles;
      NothingYet(counts, titles, rest, tries, b, size);
    }
  }
}
