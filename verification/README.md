# update_missing, modelled in Dafny

`update_missing.py` keeps a ComicRack "missing list" current. The list is a
snapshot file: a header line `Missing;<date>`, then one line per volume,
`<volume_id>;<issue ids>;<issue numbers>`, with both lists comma-separated.
The script runs in five steps:

1. It reads the snapshot into two dictionaries, `issues_number` (issue id to
   issue number) and `issues_volume` (issue id to volume id).
2. It pages through the issues the remote catalogue updated between two dates.
   New issues are added and known issues are confirmed or updated. Requests
   that fail are first retried, then the page is shrunk, and finally the issue
   at the offset is skipped.
3. It groups the issues by volume.
4. It writes the ids of the snapshot issues that no merge confirmed to a
   deleted list.
5. It writes the new snapshot, with volumes and ids in ascending order.

The model has eight modules:

- `Text`: `str.split`, the reading of a file line by line, `int()` and
  `str()` on integers, and `str.replace`, together with `Join`, a helper that
  states the comma-separated fields the script writes.
- `SnapshotParser`: the reading loop. `Parse` is a function over the whole
  text, and the method `ParseSnapshot` with its nested loops is proved equal
  to it.
- `Labels`: the escape applied to every issue number from the remote.
- `Reconciler`: the query loop.
  - `Step` is one pass of the loop body and `OnFault` is the `except` branch.
  - `Run` is the loop until `offset >= max`.
  - The methods `ProcessPage`, `Recover`, `Attempt` and `Reconcile` are the loops and
    branches on the script's own variables, each proved equal to its function.
- `ReconcilerFacts`: the merge rules, the bookkeeping the loop keeps, the
  fault protocol and its progress.
- `SnapshotWriter`: the grouping, the deleted list and the snapshot writer, as
  methods with loops proved against functions that describe the output.
- `RoundTrip`: writing a catalog and reading it back gives the same two
  dictionaries.
- `UpdateMissing`: the whole run, from the text read to the two texts written.

The remote catalogue is a function `fetch(attempt, offset, limit)` that
returns either `Fault`, standing for anything the request or the JSON
decoding raises, or a page: the reported total and the page's results. A
result whose `issue_number` is not a string has `rawNumber == None`.

Quirks of the script that the model keeps:

- The id and number lists of a record are paired by index. A record with
  more issue numbers than ids is accepted, and every written record has one
  more number than ids, because of its trailing comma. A record with fewer
  numbers than ids fails with an `IndexError`.
- The quote test on the id field reads one character past its end. So a
  record whose id field starts with `"` always fails (`QuotedIdList`), and
  no quote is ever stripped.
- Nothing turns the escape tokens back into `,` and `;`, and the escape is not reversible. `Labels.EscapeIsLossy` shows
  two issue numbers that are stored the same.
- A fault does not always stay inside the loop. An issue may have to be
  skipped before any issue was read, and `issue_id` is then unbound. The
  `NameError` raised inside the `except` branch ends the script
  (`ReconcilerFacts.AlwaysFaultingScriptCrashes`).
- A returned issue whose `issue_number` is not a string raises before its
  `del`. It stays among the deletion candidates although the remote returned
  it (`ReconcilerFacts.UnreadableNumberStaysUnconfirmed`).
- A skip reached by shrinking the page to zero leaves `skip` at 1. The next
  successful page moves the offset by `limit + skip`, so it passes over one
  more issue without requesting it and counts it as skipped as well
  (`ReconcilerFacts.SkipThenPageSkipsAgain`). A skip during a hunt that
  follows a successful page leaves `skip` at 0, and no second issue is
  passed over.
- The id recorded for a skipped issue is computed as the script does:
  `issue_id + 1` after a shrunk page succeeds, and `issue_id + offset` after
  the offset has moved by one.

## Model

| member | source | states |
|---|---|---|
| SnapshotParser.StoreFrom | update_missing.py:78-82 | definition: the inner loop storing each id with its number and the record's volume, and counting ids already stored in `cont` |
| SnapshotParser.Load | update_missing.py:64-82 | definition: the record lines read in order, each parsed and stored, stopping at the first exception |
| SnapshotParser.Parse | update_missing.py:57-84 | definition: the whole read, with the first line skipped as the header |
| SnapshotParser.ParseIdList | update_missing.py:75-82 | the ids convert when every id field is an integer and each has an issue number at its position; the i-th value is `int` of the i-th field; otherwise the error is `BadInteger` or `MissingLabel` |
| SnapshotParser.ParseRecord | update_missing.py:69-76 | a parsed record has at least as many issue numbers as ids; the numbers of a record read from one line hold no `,`, `;` or line break |
| SnapshotParser.StoreRecord | update_missing.py:78-82 | the inner loop stores the record exactly as `StoreFrom` describes; both dictionaries keep equal key sets and writable numbers |
| SnapshotParser.ParseSnapshot | update_missing.py:57-84 | the reading loop, header flag included, returns `Parse(text)`; on success both dictionaries have the same keys and every number is writable |
| SnapshotParser.StoreAdds | update_missing.py:78-82 | after storing a record, the keys of both dictionaries are the keys before and the record's ids, nothing more |
| SnapshotParser.StoreKeeps | update_missing.py:78-82 | a key the record does not mention keeps its number and its volume |
| SnapshotParser.StoreLast | update_missing.py:78-82 | the last occurrence of an id in the record decides its number, and its volume is the record's |
| SnapshotParser.StoreCounts | update_missing.py:78-82 | `cont` grows by the number of ids that were already keys: the new keys plus the new duplicates equal the ids stored |
| SnapshotParser.StoreFresh | update_missing.py:78-82 | storing distinct ids that are not yet keys leaves `cont` unchanged |
| SnapshotParser.HeaderIgnored | update_missing.py:64-67 | the first line is skipped whatever it holds: two files that differ only in their header parse the same |
| Text.ParseIntStr | update_missing.py:79 | `int(str(x)) == x` for every integer, the conversion the snapshot ids rely on |
| Labels.Escape | update_missing.py:117 | the escaped number holds no `,`, `;`, `\n` or `\r` |
| Labels.EscapeIsCharwise | update_missing.py:117 | the chained replaces equal an independent character-by-character substitution: `,` becomes `.&@1`, `;` becomes `.&@2`, line breaks are dropped, everything else is kept in order |
| Labels.EscapeKeepsPlain | update_missing.py:117 | a number free of the four characters is stored unchanged |
| Labels.EscapeIsLossy | update_missing.py:117 | `a,b` and `a.&@1b` are distinct numbers that escape to the same text |
| Reconciler.Start | update_missing.py:88-100 | definition: the counters at zero, `offset = 0`, `max = limit = 100`, `skip = retry = 0`, no hunt, and every snapshot issue unconfirmed |
| Reconciler.MergeIssue | update_missing.py:115-129 | definition: one result: its number escaped, then added, confirmed and perhaps updated, or the exception of a non-string number, of the `del`, or of the missing volume entry |
| Reconciler.MergePage | update_missing.py:114-129 | definition: the results merged in order, stopping at the first exception with what was changed kept |
| Reconciler.OnFault | update_missing.py:146-164 | definition: the `except` branch: retry, shrink, or skip one issue, or the `NameError` when no issue was read |
| Reconciler.Step | update_missing.py:102-164 | definition: one pass of the loop body on a response, with `max` set before the merge and the `except` branch after any exception |
| Reconciler.Run | update_missing.py:102-164 | definition: passes of the loop until `offset >= max`, or the crash |
| Reconciler.StepDecreases | update_missing.py:102-164 | every pass of the loop keeps the paging bounds (`1 <= limit <= 100`, `skip` is 0 or 1, `0 <= retry <= 4`, `offset >= 0`) and lowers the termination measure |
| Reconciler.RunStep | update_missing.py:102-164 | the run from a state whose offset is below `max` is the run from the state after one pass |
| Reconciler.ProcessPage | update_missing.py:114-129 | the loop over a page's results gives the catalog and the exception flag of `MergePage` |
| Reconciler.Recover | update_missing.py:146-164 | the `except` branch on the loop's variables gives the state `OnFault` describes, or the crash |
| Reconciler.Attempt | update_missing.py:102-164 | one pass of the loop body on the script's variables gives the state `Step` describes, or the crash |
| Reconciler.Reconcile | update_missing.py:93-164 | the `while offset < max` loop returns `Run` from the initial state; when it ends normally, `offset >= max` and the paging bounds hold |
| ReconcilerFacts.MergeNewIssue | update_missing.py:119-122 | an issue not in the catalog is added with its escaped number and its volume; `new_comics_cont` grows by one and nothing else changes |
| ReconcilerFacts.MergeKnownIssue | update_missing.py:123-129 | an unconfirmed issue leaves the unconfirmed set; `old_comics_cont` grows by one; its entries become the remote ones; `updated_comics_cont` grows if and only if its number or volume differed |
| ReconcilerFacts.MergeRepeatedIssue | update_missing.py:119-124 | an issue already confirmed or added in this run makes the `del` raise, with the catalog unchanged apart from the last id read |
| ReconcilerFacts.MergeIssueKeeps | update_missing.py:114-129 | merging one result keeps the catalog's bookkeeping, never removes a key and never re-adds an unconfirmed issue |
| ReconcilerFacts.MergeIssueKeepsOther | update_missing.py:119-129 | merging an issue other than an unconfirmed one leaves that one unconfirmed |
| ReconcilerFacts.MergePageKeepsUnreturned | update_missing.py:114-129 | a page, stopped or not, that does not return an unconfirmed issue leaves it unconfirmed |
| ReconcilerFacts.UnreadableNumberStaysUnconfirmed | update_missing.py:117-124 | a returned issue whose number is not a string raises before the `del` and stays unconfirmed |
| ReconcilerFacts.MergePageKeeps | update_missing.py:114-129 | the same for a whole page, stopped or not; a non-empty page sets the last id read |
| ReconcilerFacts.OnFaultKeeps | update_missing.py:146-164 | the `except` branch keeps the bookkeeping, leaves the catalog alone and never moves the offset back |
| ReconcilerFacts.StepKeeps | update_missing.py:102-164 | every pass keeps the bookkeeping and one `ErrorIds` entry per skipped issue; the catalog only grows and the offset never decreases |
| ReconcilerFacts.StepKeepsUnreturned | update_missing.py:102-164 | a pass whose response does not return an unconfirmed issue leaves it unconfirmed |
| ReconcilerFacts.RunKeepsUnreturned | update_missing.py:102-164 | an unconfirmed issue that no page of the run returns is still unconfirmed when the loop ends |
| ReconcilerFacts.RunKeeps | update_missing.py:99-164 | at the end of the loop, the deletion candidates are snapshot issues not confirmed by any merge, with their snapshot numbers, and only ever shrink; every snapshot issue that no page of the run returned is still a candidate; `new_comics_cont + |snapshot| == |issues_number|`; `old_comics_cont + |deletion candidates| == |snapshot|`; and `offset >= max` |
| ReconcilerFacts.StartSound | update_missing.py:88-100 | the loop starts with every snapshot issue unconfirmed, all counters at zero and the paging bounds met |
| ReconcilerFacts.SuccessfulPage | update_missing.py:131-144 | a page merged without an exception moves the offset by `limit + skip`; it resets `limit` to 100 and `retry` and `skip` to 0; `max` becomes the reported total; a page fetched after a shrink (`skip == 1`) counts one skipped issue and starts a hunt |
| ReconcilerFacts.FaultProtocol | update_missing.py:146-164 | the first four failures only count retries; later failures shrink the page by one and set `skip`; when the page would reach zero, or during a hunt, the offset moves by one, `limit` becomes 1 and one issue is skipped, unless no issue was ever read, which ends the script |
| ReconcilerFacts.MergePageKeepsLastId | update_missing.py:114-116 | once an issue was read, `issue_id` stays bound whatever a page does |
| ReconcilerFacts.SkipThenPageSkipsAgain | update_missing.py:131-164 | a skip after the page shrank to one leaves `skip` at 1, so the next successful page moves the offset by two and counts a second skipped issue |
| ReconcilerFacts.FaultsToSkip | update_missing.py:147-164 | the number of failures in a row before the offset moves is between 1 and 104 |
| ReconcilerFacts.FaultsAdvance | update_missing.py:146-164 | no livelock: after `FaultsToSkip` failures in a row the offset has moved past exactly one issue, or the script has ended because no issue was read; every shorter run of failures keeps the offset and the paging bounds |
| ReconcilerFacts.AlwaysFaultingRunCrashes | update_missing.py:146-164 | when every request fails and no issue was ever read, the loop ends in the `NameError` rather than looping |
| ReconcilerFacts.AlwaysFaultingScriptCrashes | update_missing.py:93-164 | a remote that always fails makes the whole loop end in the `NameError` |
| ReconcilerFacts.RetriedPageFaultsAgain | update_missing.py:114-129 | a page that raised after adding its first issue raises again on that issue when requested again, since the issue is no longer unconfirmed |
| ReconcilerFacts.MergePageClean | update_missing.py:117 | merging a page keeps every stored number free of `,`, `;` and line breaks |
| ReconcilerFacts.RunClean | update_missing.py:102-164 | so does the whole loop, which keeps the final catalog writable |
| SnapshotWriter.SortedKeys | update_missing.py:187-190 | `sorted(...)` is made of the given keys and has one entry per key |
| SnapshotWriter.SortedKeysAscending | update_missing.py:187-190 | `sorted(...)` of a set of keys is strictly ascending |
| SnapshotWriter.SortedKeysFresh | update_missing.py:187-190 | no key of `sorted(...)` appears before its own position |
| SnapshotWriter.SortedKeysCover | update_missing.py:187-190 | every key appears in `sorted(...)` |
| SnapshotWriter.Group | update_missing.py:166-170 | each issue is under its own volume with its own number, nothing else is there, and no volume is empty |
| SnapshotWriter.GroupOfAdd | update_missing.py:167-170 | adding one issue to the grouped ones inserts it under its volume, creating the volume if it was missing |
| SnapshotWriter.GroupByVolume | update_missing.py:166-170 | the grouping loop builds `Group(numbers, volumes)` |
| SnapshotWriter.IdStrs | update_missing.py:191 | the i-th text is `str` of the i-th id |
| SnapshotWriter.Numbers | update_missing.py:192 | the i-th text is the number of the i-th id |
| SnapshotWriter.TrailingJoin | update_missing.py:188-192 | texts each followed by a comma equal their comma join with a trailing comma |
| SnapshotWriter.TrailingTrim | update_missing.py:193 | dropping the last character of a non-empty trailing-comma list leaves the plain comma join |
| SnapshotWriter.RecordLine | update_missing.py:188-194 | definition: `<volume>;<ids>;<numbers>,` with the ids ascending |
| SnapshotWriter.SnapshotText | update_missing.py:184-194 | definition: the header line, then one record line per volume, volumes ascending |
| SnapshotWriter.RecordLinesAt | update_missing.py:187-194 | the i-th record line is the line of the i-th volume |
| SnapshotWriter.WriteIssueLists | update_missing.py:188-193 | the inner loop and the trim give the comma join of the ids and the comma join of their numbers with a trailing comma |
| SnapshotWriter.RecordFields | update_missing.py:188-193 | the trimmed id list is the plain comma join of the ids, and the numbers list is every number followed by a comma |
| SnapshotWriter.WriteRecord | update_missing.py:188-194 | one volume is written as `volume;ids;numbers,` followed by a line break, with ids ascending |
| SnapshotWriter.WriteRecords | update_missing.py:187-195 | one record line per volume, volumes ascending |
| SnapshotWriter.WriteSnapshot | update_missing.py:184-196 | the file is the header `Missing;<end_date>` followed by the record lines |
| SnapshotWriter.DeletedStep | update_missing.py:176-178 | writing one more candidate keeps the written ids distinct, all candidates, and counted by `deleted_comics_cont` |
| SnapshotWriter.WriteDeleted | update_missing.py:174-180 | the deleted list holds each deletion candidate exactly once and nothing else, one `str(id)` per line; `deleted_comics_cont` is its length and the number of candidates |
| SnapshotWriter.DeletedReadsBack | update_missing.py:176-178 | reading the deleted list line by line with `int` gives back the ids in the order written |
| RoundTrip.RecordLineOneLine | update_missing.py:194 | a record line of writable numbers holds no line break |
| RoundTrip.RecordLineParses | update_missing.py:69-82 | the line written for a non-empty volume parses back as that volume, its ids ascending, and its numbers followed by one empty text |
| RoundTrip.StoreKeys | update_missing.py:78-82 | storing one more volume's record makes the keys those of all the volumes read so far, the same for both dictionaries |
| RoundTrip.StoreValues | update_missing.py:78-82 | each stored issue has the number and the volume it had in the catalog written |
| RoundTrip.StoreVolume | update_missing.py:78-82 | storing the record of a volume not stored before adds exactly its issues, with their numbers and volume, and counts no duplicate |
| RoundTrip.GroupRecord | update_missing.py:166-170 | the record written for a volume lists each issue of that volume once, with its number |
| RoundTrip.GroupClean | update_missing.py:166-170 | a written volume has at least one issue, and its numbers are writable |
| RoundTrip.LoadVolume | update_missing.py:69-82 | reading the k-th record line adds exactly the k-th volume's issues |
| RoundTrip.LoadVolumes | update_missing.py:64-82 | reading the record lines from the k-th on adds the volumes not yet stored |
| RoundTrip.AllVolumesWritten | update_missing.py:166-170 | every issue's volume is written, so no issue is lost |
| RoundTrip.SnapshotLines | update_missing.py:185-194 | the written file, split into lines, is the header and then one record line per volume |
| RoundTrip.ReadBack | update_missing.py:64-82 | reading the snapshot of any grouping of the catalog gives back the catalog with a zero duplicate count |
| RoundTrip.WriteThenRead | update_missing.py:184-194 | re-parsing the written snapshot round-trips: `Parse(SnapshotText(d, Group(n, v))) == Ok(Db(n, v, 0))` when every number is writable and the date holds no line break |
| UpdateMissing.Update | update_missing.py:57-196 | the whole run returns one of three outcomes. The snapshot does not parse: the parse error. The loop ends in the `NameError`: a crash. Otherwise, the new snapshot is the grouped, sorted catalog and reads back as it; no snapshot issue is lost; the deleted list holds, once each, exactly the snapshot issues no merge confirmed, among them every snapshot issue no page returned; and the counters add up against the snapshot |

## Left out

- The HTTP request, the URL, the headers and the JSON decoding are left out. The remote is the parameter `fetch`, and any exception in a request or its decoding is a `Fault`.
- A JSON result without a `volume` or an `id` key is left out: the results always carry both.
- Reconciler.Reconcile: it requires that the totals the remote reports are bounded (`TotalsBounded`). The measure that shows the loop ends needs this bound. A remote whose totals keep growing can make the script run forever, and that case is not modelled.
- UpdateMissing.Update: it requires `TotalsBounded` too, for the same reason, since it runs the loop through `Reconcile`.
- The command line, the file names, opening and closing the files, the rename of the input file and every `print` are left out. The files read and written are texts.
- SnapshotWriter.WriteDeleted: the order of the deleted list is not tied to Python's dictionary order, which here is the order in which the snapshot first mentioned each id. The method states only that each candidate appears once.
- Text.ParseInt: it accepts an optional sign followed by ASCII digits. The leading and trailing whitespace, underscores and non-ASCII digits that Python's `int()` also accepts are left out.
- Text.Lines: it splits on `\n` only. The universal-newline translation of `\r\n` and `\r` when the file is read is left out.
- The contents of `ErrorIds` are kept as a list of integers. The script only prints them, and prints are left out. Only their count is related to `comic_skip_cont`.
- The docstring's rule that a comma followed by a space is not a delimiter is not implemented by the script, and so is not modelled.
- The progress line printed per page, which uses `min(offset, max)`, is left out.
