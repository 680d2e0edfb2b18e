/**
 * The query loop of the update script: pages of recently updated issues are
 * requested from the remote catalogue and merged into `issues_number` and
 * `issues_volume`; a failing request is retried, then the page is shrunk one
 * issue at a time, and finally the issue at the current offset is skipped.
 *
 * The HTTP request and the JSON decoding are replaced by `fetch`, which maps
 * the attempt number, the offset and the page size to a response: either a
 * fault (anything the request or the decoding raises) or the reported total
 * and the page's issues.
 */
module Reconciler {
  import opened Text
  import opened Labels

  /** `limit`: the full page size, restored after every successful page. */
  const PageSize := 100
  /** Failed requests of one page that are retried before the page shrinks. */
  const MaxRetries := 4
  /** `max` before the first page reports the real total. */
  const FirstMax := 100

  /** One result of a page; `rawNumber` is `None` when `issue_number` is not a string. */
  datatype RemoteIssue = RemoteIssue(id: int, volume: int, rawNumber: Option<string>)

  datatype Response = Fault | Page(total: nat, results: seq<RemoteIssue>)

  /**
   * What merging a page updates: `issues_number`, `issues_volume`,
   * `non_retrieved_comics`, the counters of new, already known and updated
   * issues, and `issue_id`, the last issue read (unbound until the first one).
   */
  datatype Catalog = Catalog(
    numbers: map<int, string>,
    volumes: map<int, int>,
    nonRetrieved: map<int, string>,
    added: nat,
    known: nat,
    updated: nat,
    lastId: Option<int>)

  /**
   * The whole loop state: the catalog, the paging variables `offset`, `max`,
   * `limit`, `skip`, `retry` and `FindingError`, the count of skipped issues
   * `comic_skip_cont`, and the numbers appended to `ErrorIds`.
   */
  datatype State = State(
    cat: Catalog,
    offset: int,
    max: int,
    limit: int,
    skip: int,
    retry: int,
    findingError: bool,
    skipped: nat,
    errorIds: seq<int>)

  /** Merging stopped by an exception (`raised`) keeps what it already changed. */
  datatype Merged = Merged(cat: Catalog, raised: bool)

  /** The state before the first request: the catalog holds the snapshot, all of it unconfirmed. */
  function Start(numbers: map<int, string>, volumes: map<int, int>): State
  {
    State(Catalog(numbers, volumes, numbers, 0, 0, 0, None), 0, FirstMax, PageSize, 0, 0, false, 0, [])
  }

  /** Merges one result of a page. */
  function MergeIssue(cat: Catalog, issue: RemoteIssue): Merged
  {
    var cat1 := cat.(lastId := Some(issue.id));
    match issue.rawNumber
    case None => Merged(cat1, true)
    case Some(raw) =>
      var num := Escape(raw);
      if issue.id !in cat1.numbers then
        Merged(cat1.(added := cat1.added + 1,
                     numbers := cat1.numbers[issue.id := num],
                     volumes := cat1.volumes[issue.id := issue.volume]), false)
      else if issue.id !in cat1.nonRetrieved then
        // `del` of an id that is no longer there raises KeyError
        Merged(cat1, true)
      else
        var cat2 := cat1.(nonRetrieved := cat1.nonRetrieved - {issue.id}, known := cat1.known + 1);
        if cat2.numbers[issue.id] != num || (issue.id in cat2.volumes && cat2.volumes[issue.id] != issue.volume) then
          Merged(cat2.(updated := cat2.updated + 1,
                       numbers := cat2.numbers[issue.id := num],
                       volumes := cat2.volumes[issue.id := issue.volume]), false)
        else if issue.id !in cat2.volumes then
          Merged(cat2, true)
        else
          Merged(cat2, false)
  }

  /** Merges the results of a page in order, stopping at the first exception. */
  function MergePage(cat: Catalog, results: seq<RemoteIssue>): Merged
    decreases |results|
  {
    if results == [] then Merged(cat, false)
    else
      var m := MergeIssue(cat, results[0]);
      if m.raised then m else MergePage(m.cat, results[1..])
  }

  /**
   * The `except` branch. `None` is the NameError raised when an issue has to be
   * reported as skipped before any issue was read: it escapes the handler and
   * ends the script.
   */
  function OnFault(s: State): Option<State>
  {
    if s.retry < MaxRetries && !s.findingError then
      Some(s.(retry := s.retry + 1))
    else
      var s1 := if !s.findingError then s.(skip := 1, limit := s.limit - 1) else s;
      if s1.limit == 0 || s1.findingError then
        match s1.cat.lastId
        case None => None
        case Some(id) =>
          Some(s1.(findingError := true, limit := 1, offset := s1.offset + 1,
                   skipped := s1.skipped + 1, errorIds := s1.errorIds + [id + s1.offset + 1]))
      else
        Some(s1)
  }

  /**
   * One pass of the loop body for the response `response`. A page updates
   * `max` first; an exception while merging it, or the NameError of reporting
   * a skipped issue before any issue was read, lands in the `except` branch
   * with what was already changed.
   */
  function Step(s: State, response: Response): Option<State>
  {
    match response
    case Fault => OnFault(s)
    case Page(total, results) =>
      var m := MergePage(s.cat, results);
      var s1 := s.(max := total, cat := m.cat);
      if m.raised then OnFault(s1)
      else
        var s2 := s1.(offset := s1.offset + s1.limit + s1.skip, findingError := false);
        if s2.skip == 1 && s2.cat.lastId.None? then OnFault(s2)
        else
          var s3 :=
            if s2.skip == 1 then
              s2.(errorIds := s2.errorIds + [s2.cat.lastId.value + 1], skipped := s2.skipped + 1, findingError := true)
            else s2;
          Some(s3.(skip := 0, limit := PageSize, retry := 0))
  }

  /** The bounds the paging variables keep at the head of the loop. */
  predicate Pacing(s: State)
  {
    && 1 <= s.limit <= PageSize
    && (s.skip == 0 || s.skip == 1)
    && 0 <= s.retry <= MaxRetries
    && 0 <= s.offset
  }

  /** Failed requests left before the offset moves, minus one. */
  function Budget(s: State): (b: nat)
    requires Pacing(s)
    ensures b <= MaxRetries + PageSize
  {
    if s.findingError then 0 else MaxRetries - s.retry + s.limit
  }

  /** Termination measure of the loop when no reported total exceeds `ceiling`. */
  function Measure(s: State, ceiling: int): nat
    requires Pacing(s)
  {
    (if s.offset < ceiling then (ceiling - s.offset) * (MaxRetries + PageSize + 1) else 0) + Budget(s)
  }

  ghost predicate TotalsBounded(fetch: (nat, int, int) -> Response, ceiling: int)
  {
    forall attempt: nat, offset: int, limit: int ::
      fetch(attempt, offset, limit).Page? ==> fetch(attempt, offset, limit).total <= ceiling
  }

  function Ceiling(bound: int): int
  {
    if bound < FirstMax then FirstMax else bound
  }

  /**
   * Every pass of the loop keeps the bounds and lowers the measure: retries and
   * shrinking spend the budget, and skipping or a successful page moves the
   * offset forward.
   */
  lemma StepDecreases(s: State, response: Response, ceiling: int)
    requires Pacing(s) && s.offset < s.max <= ceiling
    requires response.Page? ==> response.total <= ceiling
    ensures Step(s, response).Some? ==>
      var t := Step(s, response).value;
      Pacing(t) && t.max <= ceiling && Measure(t, ceiling) < Measure(s, ceiling)
  {
  }

  /** The loop, run until `offset >= max` or the script ends with the NameError. */
  function Run(s: State, fetch: (nat, int, int) -> Response, attempt: nat, ceiling: int): Option<State>
    requires Pacing(s) && s.max <= ceiling && TotalsBounded(fetch, ceiling)
    decreases Measure(s, ceiling)
  {
    if s.offset >= s.max then Some(s)
    else
      var response := fetch(attempt, s.offset, s.limit);
      match Step(s, response)
      case None => None
      case Some(next) =>
        StepDecreases(s, response, ceiling);
        Run(next, fetch, attempt + 1, ceiling)
  }

  /** One pass of the loop, as the run sees it. */
  lemma RunStep(s: State, fetch: (nat, int, int) -> Response, attempt: nat, ceiling: int, next: State)
    requires Pacing(s) && s.max <= ceiling && TotalsBounded(fetch, ceiling)
    requires s.offset < s.max
    requires Step(s, fetch(attempt, s.offset, s.limit)) == Some(next)
    ensures Pacing(next) && next.max <= ceiling && Measure(next, ceiling) < Measure(s, ceiling)
    ensures Run(s, fetch, attempt, ceiling) == Run(next, fetch, attempt + 1, ceiling)
  {
    StepDecreases(s, fetch(attempt, s.offset, s.limit), ceiling);
  }

  /** The `for i in json_obj['results']` loop over one page. */
  method ProcessPage(cat: Catalog, results: seq<RemoteIssue>) returns (out: Catalog, raised: bool)
    ensures Merged(out, raised) == MergePage(cat, results)
  {
    var numbers, volumes, nonRetrieved := cat.numbers, cat.volumes, cat.nonRetrieved;
    var added, known, updated, lastId := cat.added, cat.known, cat.updated, cat.lastId;
    raised := false;
    var k := 0;
    while k < |results| && !raised
      invariant 0 <= k <= |results|
      invariant !raised ==>
        MergePage(Catalog(numbers, volumes, nonRetrieved, added, known, updated, lastId), results[k..])
        == MergePage(cat, results)
      invariant raised ==>
        Merged(Catalog(numbers, volumes, nonRetrieved, added, known, updated, lastId), true)
        == MergePage(cat, results)
    {
      ghost var before := Catalog(numbers, volumes, nonRetrieved, added, known, updated, lastId);
      var issue := results[k];
      lastId := Some(issue.id);
      if issue.rawNumber.None? {
        raised := true;
      } else {
        var num := Escape(issue.rawNumber.value);
        if issue.id !in numbers {
          added := added + 1;
          numbers := numbers[issue.id := num];
          volumes := volumes[issue.id := issue.volume];
        } else if issue.id !in nonRetrieved {
          raised := true;
        } else {
          nonRetrieved := nonRetrieved - {issue.id};
          known := known + 1;
          if numbers[issue.id] != num || (issue.id in volumes && volumes[issue.id] != issue.volume) {
            updated := updated + 1;
            numbers := numbers[issue.id := num];
            volumes := volumes[issue.id := issue.volume];
          } else if issue.id !in volumes {
            raised := true;
          }
        }
      }
      assert MergeIssue(before, issue)
        == Merged(Catalog(numbers, volumes, nonRetrieved, added, known, updated, lastId), raised);
      assert results[k..][1..] == results[k + 1..];
      k := k + 1;
    }
    out := Catalog(numbers, volumes, nonRetrieved, added, known, updated, lastId);
  }

  /**
   * The `except` branch, on the loop's own variables. `crashed` is the
   * NameError of reporting a skipped issue before any issue was read.
   */
  method Recover(cat: Catalog, offset: int, max: int, limit: int, skip: int, retry: int,
                 findingError: bool, skipped: nat, errorIds: seq<int>)
    returns (offset': int, limit': int, skip': int, retry': int, findingError': bool,
             skipped': nat, errorIds': seq<int>, crashed: bool)
    ensures var s := State(cat, offset, max, limit, skip, retry, findingError, skipped, errorIds);
      OnFault(s) == if crashed then None
                    else Some(State(cat, offset', max, limit', skip', retry', findingError', skipped', errorIds'))
  {
    offset', limit', skip', retry', findingError', skipped', errorIds' :=
      offset, limit, skip, retry, findingError, skipped, errorIds;
    crashed := false;
    if retry' < MaxRetries && !findingError' {
      retry' := retry' + 1;
    } else {
      if !findingError' {
        skip' := 1;
        limit' := limit' - 1;
      }
      if limit' == 0 || findingError' {
        if cat.lastId.None? {
          crashed := true;
          return;
        }
        findingError' := true;
        limit' := 1;
        offset' := offset' + 1;
        skipped' := skipped' + 1;
        errorIds' := errorIds' + [cat.lastId.value + offset'];
      }
    }
  }

  /**
   * One pass of the loop body for the response `response`: the `try` block,
   * and the `except` branch when the request, the page or the report of a
   * skipped issue raises. `crashed` is the NameError that escapes the handler.
   */
  method Attempt(cat: Catalog, offset: int, max: int, limit: int, skip: int, retry: int,
                 findingError: bool, skipped: nat, errorIds: seq<int>, response: Response)
    returns (cat': Catalog, offset': int, max': int, limit': int, skip': int, retry': int,
             findingError': bool, skipped': nat, errorIds': seq<int>, crashed: bool)
    ensures var s := State(cat, offset, max, limit, skip, retry, findingError, skipped, errorIds);
      Step(s, response) == if crashed then None
        else Some(State(cat', offset', max', limit', skip', retry', findingError', skipped', errorIds'))
  {
    ghost var before := State(cat, offset, max, limit, skip, retry, findingError, skipped, errorIds);
    cat', offset', max', limit', skip', retry', findingError', skipped', errorIds' :=
      cat, offset, max, limit, skip, retry, findingError, skipped, errorIds;
    crashed := false;
    var faulted := false;
    if response.Page? {
      max' := response.total;
      var raised;
      cat', raised := ProcessPage(cat', response.results);
      if raised {
        faulted := true;
      } else {
        offset' := offset' + limit' + skip';
        findingError' := false;
        if skip' == 1 {
          if cat'.lastId.None? {
            faulted := true;
          } else {
            errorIds' := errorIds' + [cat'.lastId.value + 1];
            skipped' := skipped' + 1;
            findingError' := true;
          }
        }
        if !faulted {
          skip', limit', retry' := 0, PageSize, 0;
        }
      }
    } else {
      faulted := true;
    }
    if faulted {
      // the state the `except` branch starts from
      ghost var entry := State(cat', offset', max', limit', skip', retry', findingError', skipped', errorIds');
      assert Step(before, response) == OnFault(entry);
      offset', limit', skip', retry', findingError', skipped', errorIds', crashed :=
        Recover(cat', offset', max', limit', skip', retry', findingError', skipped', errorIds');
    }
  }

  /**
   * The `while offset < max` loop. It ends with `offset >= max` or with the
   * NameError (`None`), and its result is the one `Run` describes.
   */
  method Reconcile(numbers: map<int, string>, volumes: map<int, int>,
                   fetch: (nat, int, int) -> Response, bound: int)
    returns (r: Option<State>)
    requires TotalsBounded(fetch, bound)
    ensures r == Run(Start(numbers, volumes), fetch, 0, Ceiling(bound))
    ensures r.Some? ==> r.value.offset >= r.value.max && Pacing(r.value)
  {
    ghost var ceiling := Ceiling(bound);
    var cat := Catalog(numbers, volumes, numbers, 0, 0, 0, None);
    var offset, max, limit, skip, retry := 0, FirstMax, PageSize, 0, 0;
    var findingError := false;
    var skipped: nat := 0;
    var errorIds: seq<int> := [];
    var attempt: nat := 0;
    while offset < max
      invariant Pacing(State(cat, offset, max, limit, skip, retry, findingError, skipped, errorIds))
      invariant max <= ceiling
      invariant Run(State(cat, offset, max, limit, skip, retry, findingError, skipped, errorIds), fetch, attempt, ceiling)
        == Run(Start(numbers, volumes), fetch, 0, ceiling)
      decreases Measure(State(cat, offset, max, limit, skip, retry, findingError, skipped, errorIds), ceiling)
    {
      ghost var before := State(cat, offset, max, limit, skip, retry, findingError, skipped, errorIds);
      var response := fetch(attempt, offset, limit);
      var crashed;
      cat, offset, max, limit, skip, retry, findingError, skipped, errorIds, crashed :=
        Attempt(cat, offset, max, limit, skip, retry, findingError, skipped, errorIds, response);
      if crashed {
        return None;
      }
      RunStep(before, fetch, attempt, ceiling,
              State(cat, offset, max, limit, skip, retry, findingError, skipped, errorIds));
      attempt := attempt + 1;
    }
    return Some(State(cat, offset, max, limit, skip, retry, findingError, skipped, errorIds));
  }
}
