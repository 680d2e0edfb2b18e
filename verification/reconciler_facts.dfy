/**
 * Properties of the query loop: the merge rules for one issue, the
 * bookkeeping the catalog keeps (counters, unconfirmed issues), the retry,
 * shrink and skip protocol of the `except` branch, and what a request that
 * always fails leads to.
 */
module ReconcilerFacts {
  import opened Text
  import opened Labels
  import opened Reconciler
  import SnapshotParser

  /**
   * What the catalog keeps relative to the snapshot `initial` it started from:
   * both dictionaries have the same keys and never lose one; the unconfirmed
   * issues are snapshot entries, unchanged; `new_comics_cont` counts the keys
   * added, `old_comics_cont` the snapshot issues confirmed, and no more issues
   * were updated than confirmed.
   */
  ghost predicate Consistent(initial: map<int, string>, cat: Catalog)
  {
    && cat.numbers.Keys == cat.volumes.Keys
    && initial.Keys <= cat.numbers.Keys
    && cat.nonRetrieved.Keys <= initial.Keys
    && (forall id :: id in cat.nonRetrieved ==> cat.nonRetrieved[id] == initial[id])
    && cat.added + |initial| == |cat.numbers|
    && cat.known + |cat.nonRetrieved| == |initial|
    && cat.updated <= cat.known
  }

  /** `later` extends `earlier`: no key lost, no unconfirmed issue regained, no counter lowered. */
  ghost predicate Grows(earlier: Catalog, later: Catalog)
  {
    && earlier.numbers.Keys <= later.numbers.Keys
    && later.nonRetrieved.Keys <= earlier.nonRetrieved.Keys
    && earlier.added <= later.added
    && earlier.known <= later.known
    && earlier.updated <= later.updated
    && (earlier.lastId.Some? ==> later.lastId.Some?)
  }

  lemma RemoveOneCard(m: map<int, string>, id: int)
    requires id in m
    ensures |m - {id}| == |m| - 1
  {
    assert (m - {id}).Keys == m.Keys - {id};
    assert |m.Keys - {id}| == |m.Keys| - 1;
  }

  /** An issue not in the catalog is inserted with its escaped number and volume; nothing else changes. */
  lemma MergeNewIssue(cat: Catalog, issue: RemoteIssue)
    requires issue.rawNumber.Some? && issue.id !in cat.numbers
    ensures var m := MergeIssue(cat, issue);
      && !m.raised
      && m.cat.numbers == cat.numbers[issue.id := Escape(issue.rawNumber.value)]
      && m.cat.volumes == cat.volumes[issue.id := issue.volume]
      && m.cat.nonRetrieved == cat.nonRetrieved
      && m.cat.added == cat.added + 1
      && m.cat.known == cat.known && m.cat.updated == cat.updated
  {
  }

  /**
   * An unconfirmed issue of the catalog is confirmed: it leaves the
   * unconfirmed issues, `old_comics_cont` grows by one, its entries become the
   * remote ones, and `updated_comics_cont` grows exactly when one of them differed.
   */
  lemma MergeKnownIssue(cat: Catalog, issue: RemoteIssue)
    requires issue.rawNumber.Some? && issue.id in cat.numbers && issue.id in cat.volumes
    requires issue.id in cat.nonRetrieved
    ensures var m := MergeIssue(cat, issue);
      var num := Escape(issue.rawNumber.value);
      && !m.raised
      && m.cat.nonRetrieved == cat.nonRetrieved - {issue.id}
      && m.cat.known == cat.known + 1 && m.cat.added == cat.added
      && m.cat.numbers == cat.numbers[issue.id := num]
      && m.cat.volumes == cat.volumes[issue.id := issue.volume]
      && (m.cat.updated == cat.updated + 1 <==>
           cat.numbers[issue.id] != num || cat.volumes[issue.id] != issue.volume)
      && (m.cat.updated == cat.updated <==>
           cat.numbers[issue.id] == num && cat.volumes[issue.id] == issue.volume)
  {
    var num := Escape(issue.rawNumber.value);
    if cat.numbers[issue.id] == num && cat.volumes[issue.id] == issue.volume {
      assert cat.numbers[issue.id := num] == cat.numbers;
      assert cat.volumes[issue.id := issue.volume] == cat.volumes;
    }
  }

  /**
   * An issue that is in the catalog but no longer unconfirmed (seen earlier in
   * this run, or added by it) makes the `del` raise: the page stops there.
   */
  lemma MergeRepeatedIssue(cat: Catalog, issue: RemoteIssue)
    requires issue.rawNumber.Some? && issue.id in cat.numbers && issue.id !in cat.nonRetrieved
    ensures MergeIssue(cat, issue) == Merged(cat.(lastId := Some(issue.id)), true)
  {
  }

  lemma MergeIssueKeeps(initial: map<int, string>, cat: Catalog, issue: RemoteIssue)
    requires Consistent(initial, cat)
    ensures Consistent(initial, MergeIssue(cat, issue).cat)
    ensures Grows(cat, MergeIssue(cat, issue).cat)
    ensures MergeIssue(cat, issue).cat.lastId == Some(issue.id)
  {
    if issue.rawNumber.Some? && issue.id in cat.numbers && issue.id in cat.nonRetrieved {
      RemoveOneCard(cat.nonRetrieved, issue.id);
    }
  }

  /** Merging a page, completely or up to an exception, keeps the bookkeeping. */
  lemma {:induction false} MergePageKeeps(initial: map<int, string>, cat: Catalog, results: seq<RemoteIssue>)
    requires Consistent(initial, cat)
    ensures Consistent(initial, MergePage(cat, results).cat)
    ensures Grows(cat, MergePage(cat, results).cat)
    ensures results != [] ==> MergePage(cat, results).cat.lastId.Some?
    decreases |results|
  {
    if results != [] {
      MergeIssueKeeps(initial, cat, results[0]);
      var m := MergeIssue(cat, results[0]);
      if !m.raised {
        MergePageKeeps(initial, m.cat, results[1..]);
      }
    }
  }

  /** The ids of a page's results. */
  function PageIds(results: seq<RemoteIssue>): set<int>
  {
    set j | 0 <= j < |results| :: results[j].id
  }

  /** Merging an issue other than `id` leaves `id` unconfirmed. */
  lemma MergeIssueKeepsOther(cat: Catalog, issue: RemoteIssue, id: int)
    requires id in cat.nonRetrieved && issue.id != id
    ensures id in MergeIssue(cat, issue).cat.nonRetrieved
  {
  }

  /** A page that does not return an unconfirmed issue leaves it unconfirmed, whether or not it raises. */
  lemma {:induction false} MergePageKeepsUnreturned(cat: Catalog, results: seq<RemoteIssue>, id: int)
    requires id in cat.nonRetrieved && id !in PageIds(results)
    ensures id in MergePage(cat, results).cat.nonRetrieved
    decreases |results|
  {
    if results != [] {
      assert results[0].id in PageIds(results);
      MergeIssueKeepsOther(cat, results[0], id);
      var m := MergeIssue(cat, results[0]);
      if !m.raised {
        forall j | 0 <= j < |results[1..]| ensures results[1..][j].id in PageIds(results) {
          assert results[1..][j] == results[j + 1];
        }
        MergePageKeepsUnreturned(m.cat, results[1..], id);
      }
    }
  }

  /**
   * A returned issue whose `issue_number` is not a string raises before its
   * `del`: it was returned, yet it stays unconfirmed and the page stops.
   */
  lemma UnreadableNumberStaysUnconfirmed(cat: Catalog, id: int, volume: int)
    ensures MergePage(cat, [RemoteIssue(id, volume, None)]).raised
    ensures MergePage(cat, [RemoteIssue(id, volume, None)]).cat.nonRetrieved == cat.nonRetrieved
  {
  }

  /** The loop state's bookkeeping: the catalog's, and one `ErrorIds` entry per skipped issue. */
  ghost predicate Sound(initial: map<int, string>, s: State)
  {
    Consistent(initial, s.cat) && |s.errorIds| == s.skipped
  }

  lemma OnFaultKeeps(initial: map<int, string>, s: State)
    requires Sound(initial, s)
    ensures OnFault(s).Some? ==>
      Sound(initial, OnFault(s).value) && OnFault(s).value.cat == s.cat && OnFault(s).value.offset >= s.offset
  {
  }

  /**
   * Whatever the response, a pass of the loop keeps the bookkeeping, never
   * moves the offset back and never removes a key from the catalog.
   */
  lemma StepKeeps(initial: map<int, string>, s: State, response: Response)
    requires Sound(initial, s) && Pacing(s)
    ensures Step(s, response).Some? ==>
      var t := Step(s, response).value;
      Sound(initial, t) && Grows(s.cat, t.cat) && t.offset >= s.offset
  {
    if response.Page? {
      MergePageKeeps(initial, s.cat, response.results);
      var m := MergePage(s.cat, response.results);
      var s1 := s.(max := response.total, cat := m.cat);
      OnFaultKeeps(initial, s1);
      var s2 := s1.(offset := s1.offset + s1.limit + s1.skip, findingError := false);
      OnFaultKeeps(initial, s2);
    } else {
      OnFaultKeeps(initial, s);
    }
  }

  /** A pass whose response does not return an unconfirmed issue leaves it unconfirmed. */
  lemma StepKeepsUnreturned(s: State, response: Response, id: int)
    requires id in s.cat.nonRetrieved
    requires response.Page? ==> id !in PageIds(response.results)
    ensures Step(s, response).Some? ==> id in Step(s, response).value.cat.nonRetrieved
  {
    if response.Page? {
      MergePageKeepsUnreturned(s.cat, response.results, id);
    }
  }

  /** The ids of every result of every page the loop receives, until it ends. */
  ghost function ReturnedIds(s: State, fetch: (nat, int, int) -> Response, attempt: nat, ceiling: int): set<int>
    requires Pacing(s) && s.max <= ceiling && TotalsBounded(fetch, ceiling)
    decreases Measure(s, ceiling)
  {
    if s.offset >= s.max then {}
    else
      var response := fetch(attempt, s.offset, s.limit);
      var here := if response.Page? then PageIds(response.results) else {};
      match Step(s, response)
      case None => here
      case Some(next) =>
        StepDecreases(s, response, ceiling);
        here + ReturnedIds(next, fetch, attempt + 1, ceiling)
  }

  /** An unconfirmed issue that no page of the run returns is still unconfirmed when the loop ends. */
  lemma {:induction false} RunKeepsUnreturned(s: State, fetch: (nat, int, int) -> Response,
                                              attempt: nat, ceiling: int)
    requires Pacing(s) && s.max <= ceiling && TotalsBounded(fetch, ceiling)
    ensures Run(s, fetch, attempt, ceiling).Some? ==>
      forall id :: id in s.cat.nonRetrieved && id !in ReturnedIds(s, fetch, attempt, ceiling) ==>
        id in Run(s, fetch, attempt, ceiling).value.cat.nonRetrieved
    decreases Measure(s, ceiling)
  {
    if s.offset < s.max {
      var response := fetch(attempt, s.offset, s.limit);
      if Step(s, response).Some? {
        var next := Step(s, response).value;
        StepDecreases(s, response, ceiling);
        var here := if response.Page? then PageIds(response.results) else {};
        assert ReturnedIds(s, fetch, attempt, ceiling) == here + ReturnedIds(next, fetch, attempt + 1, ceiling);
        assert Run(s, fetch, attempt, ceiling) == Run(next, fetch, attempt + 1, ceiling);
        forall id | id in s.cat.nonRetrieved && id !in ReturnedIds(s, fetch, attempt, ceiling)
          ensures id in next.cat.nonRetrieved && id !in ReturnedIds(next, fetch, attempt + 1, ceiling)
        {
          StepKeepsUnreturned(s, response, id);
        }
        RunKeepsUnreturned(next, fetch, attempt + 1, ceiling);
      }
    }
  }

  /** The bookkeeping holds when the loop ends. */
  lemma {:induction false} RunKeeps(initial: map<int, string>, s: State, fetch: (nat, int, int) -> Response,
                                    attempt: nat, ceiling: int)
    requires Pacing(s) && s.max <= ceiling && TotalsBounded(fetch, ceiling)
    requires Sound(initial, s)
    ensures Run(s, fetch, attempt, ceiling).Some? ==>
      var t := Run(s, fetch, attempt, ceiling).value;
      Sound(initial, t) && Grows(s.cat, t.cat) && t.offset >= s.offset && t.offset >= t.max
    ensures Run(s, fetch, attempt, ceiling).Some? ==>
      forall id :: id in s.cat.nonRetrieved && id !in ReturnedIds(s, fetch, attempt, ceiling) ==>
        id in Run(s, fetch, attempt, ceiling).value.cat.nonRetrieved
    decreases Measure(s, ceiling)
  {
    RunKeepsUnreturned(s, fetch, attempt, ceiling);
    if s.offset < s.max {
      var response := fetch(attempt, s.offset, s.limit);
      StepKeeps(initial, s, response);
      if Step(s, response).Some? {
        var next := Step(s, response).value;
        StepDecreases(s, response, ceiling);
        RunKeeps(initial, next, fetch, attempt + 1, ceiling);
      }
    }
  }

  /** The run starts consistent with the snapshot it was given. */
  lemma StartSound(numbers: map<int, string>, volumes: map<int, int>)
    requires numbers.Keys == volumes.Keys
    ensures Sound(numbers, Start(numbers, volumes)) && Pacing(Start(numbers, volumes))
  {
  }

  /**
   * A page that merges without an exception moves the offset by `limit + skip`
   * and restores the full page size, the retry counter and `skip`; `max`
   * becomes the reported total.
   */
  lemma SuccessfulPage(s: State, total: nat, results: seq<RemoteIssue>)
    requires Pacing(s)
    requires !MergePage(s.cat, results).raised
    requires s.skip == 0 || MergePage(s.cat, results).cat.lastId.Some?
    ensures Step(s, Page(total, results)).Some?
    ensures var t := Step(s, Page(total, results)).value;
      && t.offset == s.offset + s.limit + s.skip > s.offset
      && t.max == total
      && t.limit == PageSize && t.retry == 0 && t.skip == 0
      && t.cat == MergePage(s.cat, results).cat
      && t.skipped == s.skipped + s.skip
      && t.findingError == (s.skip == 1)
  {
  }

  /**
   * The `except` branch: while no issue is being hunted, the first four
   * failures only count; after that each failure shrinks the page by one and
   * sets `skip`; once the page size would reach zero, or while an issue is
   * being hunted, the issue at the offset is skipped: the offset moves by one,
   * the page size becomes one and `comic_skip_cont` grows, unless no issue was
   * ever read, in which case the script ends.
   */
  lemma FaultProtocol(s: State)
    requires Pacing(s)
    ensures !s.findingError && s.retry < MaxRetries ==>
      OnFault(s) == Some(s.(retry := s.retry + 1))
    ensures !s.findingError && s.retry == MaxRetries && s.limit > 1 ==>
      OnFault(s) == Some(s.(skip := 1, limit := s.limit - 1))
    ensures (s.findingError || (s.retry == MaxRetries && s.limit == 1)) ==>
      (OnFault(s).None? <==> s.cat.lastId.None?)
    ensures (s.findingError || (s.retry == MaxRetries && s.limit == 1)) && s.cat.lastId.Some? ==>
      var t := OnFault(s).value;
      && t.offset == s.offset + 1 && t.limit == 1 && t.findingError
      && t.skipped == s.skipped + 1 && t.retry == s.retry && t.cat == s.cat
      && t.skip == (if s.findingError then s.skip else 1)
  {
  }

  /** An issue once read stays read, whatever the page does. */
  lemma {:induction false} MergePageKeepsLastId(cat: Catalog, results: seq<RemoteIssue>)
    requires cat.lastId.Some?
    ensures MergePage(cat, results).cat.lastId.Some?
    decreases |results|
  {
    if results != [] {
      var m := MergeIssue(cat, results[0]);
      if !m.raised {
        MergePageKeepsLastId(m.cat, results[1..]);
      }
    }
  }

  /**
   * A skip in the `except` branch, once the page has shrunk to one issue,
   * leaves `skip` at 1. The next page that merges without an exception then
   * moves the offset by `limit + skip`, two, so the issue after the one it
   * requested is passed over without being requested, and counted as skipped
   * too: two skips for one failing issue.
   */
  lemma SkipThenPageSkipsAgain(s: State, total: nat, results: seq<RemoteIssue>)
    requires Pacing(s) && !s.findingError && s.retry == MaxRetries && s.limit == 1
    requires s.cat.lastId.Some?
    requires !MergePage(s.cat, results).raised
    ensures Step(s, Fault).Some?
    ensures var t := Step(s, Fault).value;
      && t.offset == s.offset + 1 && t.limit == 1 && t.skip == 1 && t.skipped == s.skipped + 1
      && Step(t, Page(total, results)).Some?
      && Step(t, Page(total, results)).value.offset == s.offset + 3
      && Step(t, Page(total, results)).value.skipped == s.skipped + 2
  {
    var t := Step(s, Fault).value;
    assert t.cat == s.cat;
    MergePageKeepsLastId(t.cat, results);
  }

  /** The `except` branch taken `n` times in a row. */
  function Faults(s: State, n: nat): Option<State>
    decreases n
  {
    if n == 0 then Some(s)
    else
      match OnFault(s)
      case None => None
      case Some(t) => Faults(t, n - 1)
  }

  /** Failures in a row after which the offset has moved: at most 104. */
  function FaultsToSkip(s: State): (n: nat)
    requires Pacing(s)
    ensures 1 <= n <= MaxRetries + PageSize
  {
    if s.findingError then 1 else MaxRetries - s.retry + s.limit
  }

  /**
   * No livelock: from any loop state, `FaultsToSkip(s)` failures in a row move
   * the offset past exactly one issue (or end the script when no issue was
   * ever read), and every shorter run of failures leaves the offset where it was.
   */
  lemma {:induction false} FaultsAdvance(s: State)
    requires Pacing(s)
    ensures Faults(s, FaultsToSkip(s)).Some? <==> s.cat.lastId.Some?
    ensures s.cat.lastId.Some? ==>
      var t := Faults(s, FaultsToSkip(s)).value;
      t.offset == s.offset + 1 && t.findingError && t.limit == 1 && t.skipped == s.skipped + 1
    ensures forall k :: 0 <= k < FaultsToSkip(s) ==>
      Faults(s, k).Some? && Faults(s, k).value.offset == s.offset && Pacing(Faults(s, k).value)
    decreases FaultsToSkip(s)
  {
    var n := FaultsToSkip(s);
    if n > 1 {
      var t := OnFault(s).value;
      assert FaultsToSkip(t) == n - 1;
      FaultsAdvance(t);
      forall k | 0 <= k < n
        ensures Faults(s, k).Some? && Faults(s, k).value.offset == s.offset && Pacing(Faults(s, k).value)
      {
        if k > 0 {
          assert Faults(s, k) == Faults(t, k - 1);
        }
      }
    }
  }

  /** A request that fails every time. */
  function AlwaysFault(attempt: nat, offset: int, limit: int): Response
  {
    Fault
  }

  /**
   * When every request fails from the start, no issue is ever read, so the
   * first skip (after 4 retries and 100 shrinks) raises the NameError: the run
   * ends without reaching the output, rather than looping forever.
   */
  lemma {:induction false} AlwaysFaultingRunCrashes(s: State, attempt: nat, ceiling: int)
    requires Pacing(s) && s.max <= ceiling && s.offset < s.max
    requires s.cat.lastId.None?
    ensures TotalsBounded(AlwaysFault, ceiling)
    ensures Run(s, AlwaysFault, attempt, ceiling) == None
    decreases Measure(s, ceiling)
  {
    assert TotalsBounded(AlwaysFault, ceiling);
    if OnFault(s).Some? {
      var t := OnFault(s).value;
      StepDecreases(s, Fault, ceiling);
      AlwaysFaultingRunCrashes(t, attempt + 1, ceiling);
    }
  }

  lemma AlwaysFaultingScriptCrashes(numbers: map<int, string>, volumes: map<int, int>, bound: int)
    ensures TotalsBounded(AlwaysFault, Ceiling(bound))
    ensures Run(Start(numbers, volumes), AlwaysFault, 0, Ceiling(bound)) == None
  {
    AlwaysFaultingRunCrashes(Start(numbers, volumes), 0, Ceiling(bound));
  }

  /**
   * An exception in the middle of a page keeps what the page already changed.
   * If the page began with an issue new to the catalog, that issue is now in
   * the catalog but not among the unconfirmed ones, so requesting the same
   * page again stops on its very first issue.
   */
  lemma RetriedPageFaultsAgain(initial: map<int, string>, cat: Catalog, results: seq<RemoteIssue>)
    requires Consistent(initial, cat)
    requires results != [] && results[0].rawNumber.Some? && results[0].id !in cat.numbers
    requires MergePage(cat, results).raised
    ensures MergeIssue(MergePage(cat, results).cat, results[0]).raised
    ensures MergePage(MergePage(cat, results).cat, results).raised
  {
    var first := MergeIssue(cat, results[0]);
    MergeIssueKeeps(initial, cat, results[0]);
    assert !first.raised;
    MergePageKeeps(initial, first.cat, results[1..]);
    var after := MergePage(cat, results).cat;
    assert after == MergePage(first.cat, results[1..]).cat;
    assert results[0].id in after.numbers;
    assert results[0].id !in after.nonRetrieved;
  }

  /** Every issue number in the catalog can be written into a snapshot record. */
  ghost predicate CleanNumbers(cat: Catalog)
  {
    SnapshotParser.AllClean(cat.numbers)
  }

  lemma {:induction false} MergePageClean(cat: Catalog, results: seq<RemoteIssue>)
    requires CleanNumbers(cat)
    ensures CleanNumbers(MergePage(cat, results).cat)
    decreases |results|
  {
    if results != [] {
      var m := MergeIssue(cat, results[0]);
      assert CleanNumbers(m.cat);
      if !m.raised {
        MergePageClean(m.cat, results[1..]);
      }
    }
  }

  /** Issue numbers read from a snapshot or escaped on arrival stay writable to the end of the run. */
  lemma {:induction false} RunClean(s: State, fetch: (nat, int, int) -> Response, attempt: nat, ceiling: int)
    requires Pacing(s) && s.max <= ceiling && TotalsBounded(fetch, ceiling)
    requires CleanNumbers(s.cat)
    ensures Run(s, fetch, attempt, ceiling).Some? ==> CleanNumbers(Run(s, fetch, attempt, ceiling).value.cat)
    decreases Measure(s, ceiling)
  {
    if s.offset < s.max {
      var response := fetch(attempt, s.offset, s.limit);
      if response.Page? {
        MergePageClean(s.cat, response.results);
      }
      if Step(s, response).Some? {
        StepDecreases(s, response, ceiling);
        RunClean(Step(s, response).value, fetch, attempt + 1, ceiling);
      }
    }
  }
}
