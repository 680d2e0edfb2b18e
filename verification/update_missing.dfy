/**
 * The whole update run: read the snapshot, reconcile it with the remote
 * catalogue, group the issues by volume, list the snapshot issues no merge
 * confirmed, and write the new snapshot.
 *
 * The file names, the command line, the rename of the input file and the
 * progress messages are not part of this model; the input and output files
 * are the texts `input`, `snapshot` and `deletedText`.
 */
module UpdateMissing {
  import opened Text
  import opened SnapshotParser
  import opened Reconciler
  import opened ReconcilerFacts
  import opened SnapshotWriter
  import opened RoundTrip

  /**
   * How a run ends: an exception while reading the snapshot, the NameError of
   * the query loop, or the two files written and the counters of the closing
   * messages (`new_comics_cont`, `old_comics_cont`, `updated_comics_cont`,
   * `comic_skip_cont`, `deleted_comics_cont`).
   */
  datatype Outcome =
    | ReadFailed(error: ParseError)
    | QueryCrashed
    | Done(snapshot: string, deletedIds: seq<int>, deletedText: string,
           added: nat, known: nat, updated: nat, skipped: nat, deleted: nat)

  /**
   * The script from the first line read to the last line written. The new
   * snapshot holds the reconciled catalog and reads back as it; the deleted
   * list holds, once each, exactly the snapshot issues no merge confirmed,
   * among them every snapshot issue no page returned, with their count; the
   * counters add up against the snapshot.
   */
  method Update(input: string, endDate: string, fetch: (nat, int, int) -> Response, bound: int)
    returns (outcome: Outcome)
    requires TotalsBounded(fetch, bound)
    ensures Parse(input).Err? <==> outcome.ReadFailed?
    ensures outcome.ReadFailed? ==> Parse(input) == Err(outcome.error)
    ensures Parse(input).Ok? ==>
      var db := Parse(input).value;
      var run := Run(Start(db.numbers, db.volumes), fetch, 0, Ceiling(bound));
      && (run.None? <==> outcome.QueryCrashed?)
      && (run.Some? ==>
            var cat := run.value.cat;
            && outcome.Done?
            && cat.numbers.Keys == cat.volumes.Keys
            && outcome.snapshot == SnapshotText(endDate, Group(cat.numbers, cat.volumes))
            && ('\n' !in endDate ==> Parse(outcome.snapshot) == Ok(Db(cat.numbers, cat.volumes, 0)))
            && db.numbers.Keys <= cat.numbers.Keys
            && (forall id :: id in outcome.deletedIds <==> id in cat.nonRetrieved)
            && (forall id :: id in db.numbers && id !in ReturnedIds(Start(db.numbers, db.volumes), fetch, 0, Ceiling(bound))
                  ==> id in outcome.deletedIds)
            && Distinct(outcome.deletedIds)
            && (forall id :: id in cat.nonRetrieved ==> id in db.numbers && cat.nonRetrieved[id] == db.numbers[id])
            && outcome.deletedText == Unlines(IdStrs(outcome.deletedIds))
            && outcome.added == cat.added && outcome.known == cat.known && outcome.updated == cat.updated
            && outcome.skipped == run.value.skipped == |run.value.errorIds|
            && outcome.deleted == |outcome.deletedIds| == |cat.nonRetrieved|
            && outcome.added + |db.numbers| == |cat.numbers|
            && outcome.known + outcome.deleted == |db.numbers|
            && outcome.updated <= outcome.known)
  {
    var parsed := ParseSnapshot(input);
    if parsed.Err? {
      return ReadFailed(parsed.error);
    }
    var db := parsed.value;
    var r := Reconcile(db.numbers, db.volumes, fetch, bound);
    if r.None? {
      return QueryCrashed;
    }
    var s := r.value;
    ghost var start := Start(db.numbers, db.volumes);
    StartSound(db.numbers, db.volumes);
    RunKeeps(db.numbers, start, fetch, 0, Ceiling(bound));
    RunClean(start, fetch, 0, Ceiling(bound));
    var comics := GroupByVolume(s.cat.numbers, s.cat.volumes);
    var order, deletedText, deleted := WriteDeleted(s.cat.nonRetrieved);
    var snapshot := WriteSnapshot(endDate, comics);
    if '\n' !in endDate {
      WriteThenRead(endDate, s.cat.numbers, s.cat.volumes);
    }
    outcome := Done(snapshot, order, deletedText, s.cat.added, s.cat.known, s.cat.updated, s.skipped, deleted);
  }
}
