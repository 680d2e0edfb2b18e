/**
 * The output side of the script: grouping the issues by volume, the list of
 * snapshot issues that no merge confirmed (`Deleted_Comics.txt`),
 * and the new snapshot, written volume by volume in ascending order with the
 * issue ids of each volume in ascending order.
 */
module SnapshotWriter {
  import opened Text

  /** A set that is not empty has an element. */
  lemma NonEmpty(s: set<int>)
    requires s != {}
    ensures exists x :: x in s
  {
    if forall x :: x !in s {
      assert false;
    }
  }

  predicate IsMin(m: int, s: set<int>)
  {
    m in s && forall y :: y in s ==> m <= y
  }

  /** A finite set of integers has a least element. */
  lemma MinExists(s: set<int>)
    requires s != {}
    ensures exists m :: IsMin(m, s)
    decreases s
  {
    NonEmpty(s);
    var x :| x in s;
    if s != {x} {
      var r := s - {x};
      MinExists(r);
      var m :| IsMin(m, r);
      var least := if x < m then x else m;
      forall y | y in s ensures least <= y {
        if y != x { assert y in r; }
      }
      assert IsMin(least, s);
    } else {
      assert IsMin(x, s);
    }
  }

  /**
   * `sorted(d)` for a dictionary `d` with keys `s`: the least key, then the
   * others sorted. As many keys as `s`, each from `s`.
   */
  function SortedKeys(s: set<int>): (ks: seq<int>)
    ensures forall i :: 0 <= i < |ks| ==> ks[i] in s
    ensures |ks| == |s|
    decreases s
  {
    if s == {} then []
    else
      MinExists(s);
      var m :| IsMin(m, s);
      [m] + SortedKeys(s - {m})
  }

  /** The keys come out in strictly ascending order. */
  lemma {:induction false} SortedKeysAscending(s: set<int>)
    ensures forall i, j :: 0 <= i < j < |SortedKeys(s)| ==> SortedKeys(s)[i] < SortedKeys(s)[j]
    decreases s
  {
    if s != {} {
      MinExists(s);
      var m :| IsMin(m, s);
      var rest := SortedKeys(s - {m});
      SortedKeysAscending(s - {m});
      assert SortedKeys(s) == [m] + rest;
      var ks := [m] + rest;
      forall i, j | 0 <= i < j < |ks| ensures ks[i] < ks[j] {
        assert ks[j] == rest[j - 1] && rest[j - 1] in s - {m};
        if i == 0 {
          assert ks[i] == m && rest[j - 1] in s && rest[j - 1] != m;
          assert m <= rest[j - 1];
        } else {
          assert ks[i] == rest[i - 1];
          assert rest[i - 1] < rest[j - 1];
        }
      }
    }
  }

  /** A key of the sorted list does not occur before its position. */
  lemma SortedKeysFresh(s: set<int>, k: nat)
    requires k < |SortedKeys(s)|
    ensures SortedKeys(s)[k] !in SortedKeys(s)[..k]
  {
    SortedKeysAscending(s);
  }

  /** Every key of `s` is listed by `sorted`. */
  lemma {:induction false} SortedKeysCover(s: set<int>)
    ensures forall x :: x in s ==> x in SortedKeys(s)
    decreases s
  {
    if s != {} {
      MinExists(s);
      var m :| IsMin(m, s);
      SortedKeysCover(s - {m});
      assert SortedKeys(s) == [m] + SortedKeys(s - {m});
    }
  }

  /** The volumes of the issues `ids`. */
  function VolumesOf(volumes: map<int, int>, ids: set<int>): set<int>
    requires ids <= volumes.Keys
  {
    set id | id in ids :: volumes[id]
  }

  /** The grouping of the issues `ids`: volume id to (issue id to issue number). */
  function GroupOf(numbers: map<int, string>, volumes: map<int, int>, ids: set<int>): map<int, map<int, string>>
    requires ids <= numbers.Keys && ids <= volumes.Keys
  {
    map v | v in VolumesOf(volumes, ids) :: map id | id in ids && volumes[id] == v :: numbers[id]
  }

  /**
   * `comics`: every issue appears under its own volume with its own number,
   * nothing else appears, and no volume is listed without an issue.
   */
  function Group(numbers: map<int, string>, volumes: map<int, int>): (comics: map<int, map<int, string>>)
    requires numbers.Keys == volumes.Keys
    ensures forall id :: id in numbers ==>
      volumes[id] in comics && id in comics[volumes[id]] && comics[volumes[id]][id] == numbers[id]
    ensures forall v, id :: v in comics && id in comics[v] ==>
      id in numbers && volumes[id] == v && comics[v][id] == numbers[id]
    ensures forall v :: v in comics ==> comics[v] != map[]
  {
    var comics := GroupOf(numbers, volumes, numbers.Keys);
    assert forall v :: v in comics ==> comics[v] != map[] by {
      forall v | v in comics ensures comics[v] != map[] {
        var id :| id in numbers.Keys && volumes[id] == v;
        assert id in comics[v];
      }
    }
    comics
  }

  /** Grouping one more issue adds it under its volume, creating the volume when it is new. */
  lemma GroupOfAdd(numbers: map<int, string>, volumes: map<int, int>, done: set<int>, id: int)
    requires done <= numbers.Keys && done <= volumes.Keys && id in numbers && id in volumes
    requires id !in done
    ensures var g := GroupOf(numbers, volumes, done);
      var v := volumes[id];
      GroupOf(numbers, volumes, done + {id}) ==
        g[v := (if v in g then g[v] else map[])[id := numbers[id]]]
  {
    var g := GroupOf(numbers, volumes, done);
    var v := volumes[id];
    var lhs := GroupOf(numbers, volumes, done + {id});
    var rhs := g[v := (if v in g then g[v] else map[])[id := numbers[id]]];
    assert VolumesOf(volumes, done + {id}) == VolumesOf(volumes, done) + {v};
    assert lhs.Keys == rhs.Keys;
    forall w | w in lhs ensures lhs[w] == rhs[w] {
      if w == v {
        if v in g {
          assert lhs[w] == g[v][id := numbers[id]];
        } else {
          assert lhs[w] == map[id := numbers[id]];
        }
      } else {
        assert lhs[w] == g[w];
      }
    }
  }

  /** The grouping loop of the script, one issue at a time. */
  method GroupByVolume(numbers: map<int, string>, volumes: map<int, int>) returns (comics: map<int, map<int, string>>)
    requires numbers.Keys == volumes.Keys
    ensures comics == Group(numbers, volumes)
  {
    comics := map[];
    var rest := numbers.Keys;
    while rest != {}
      invariant rest <= numbers.Keys
      invariant comics == GroupOf(numbers, volumes, numbers.Keys - rest)
      decreases rest
    {
      NonEmpty(rest);
      var id :| id in rest;
      ghost var done := numbers.Keys - rest;
      GroupOfAdd(numbers, volumes, done, id);
      var v := volumes[id];
      if v !in comics {
        comics := comics[v := map[]];
      }
      comics := comics[v := comics[v][id := numbers[id]]];
      rest := rest - {id};
      assert numbers.Keys - rest == done + {id};
    }
    assert numbers.Keys - rest == numbers.Keys;
  }

  /** `str(id)` for each id, in order. */
  function IdStrs(ids: seq<int>): (r: seq<string>)
    ensures |r| == |ids| && forall i :: 0 <= i < |ids| ==> r[i] == IntStr(ids[i])
  {
    if ids == [] then [] else IdStrs(ids[..|ids| - 1]) + [IntStr(ids[|ids| - 1])]
  }

  /** The issue numbers of `ids`, in order. */
  function Numbers(issues: map<int, string>, ids: seq<int>): (r: seq<string>)
    requires forall i :: 0 <= i < |ids| ==> ids[i] in issues
    ensures |r| == |ids| && forall i :: 0 <= i < |ids| ==> r[i] == issues[ids[i]]
  {
    if ids == [] then [] else Numbers(issues, ids[..|ids| - 1]) + [issues[ids[|ids| - 1]]]
  }

  /** The texts `xs`, each followed by a comma, as the inner loop builds them. */
  function Trailing(xs: seq<string>): string
  {
    if xs == [] then "" else xs[0] + "," + Trailing(xs[1..])
  }

  /** One more text adds it and its comma at the end. */
  lemma {:induction false} TrailingSnoc(xs: seq<string>, x: string)
    ensures Trailing(xs + [x]) == Trailing(xs) + x + ","
    decreases |xs|
  {
    if xs != [] {
      assert (xs + [x])[1..] == xs[1..] + [x];
      TrailingSnoc(xs[1..], x);
    }
  }

  /**
   * A comma after every piece is the same as the pieces joined together
   * with an empty piece at the end, and, when there is a piece, as commas
   * between the pieces and one after the last.
   */
  lemma {:induction false} TrailingJoin(xs: seq<string>)
    ensures Trailing(xs) == Join(xs + [""], ',')
    ensures xs != [] ==> Trailing(xs) == Join(xs, ',') + ","
    decreases |xs|
  {
    if xs != [] {
      TrailingJoin(xs[1..]);
      assert (xs + [""])[1..] == xs[1..] + [""];
    }
  }

  /** Dropping the last character of the comma-terminated pieces leaves them joined by commas. */
  lemma TrailingTrim(xs: seq<string>)
    ensures Trailing(xs) == [] <==> xs == []
    ensures xs != [] ==> var t := Trailing(xs); t[..|t| - 1] == Join(xs, ',')
  {
    if xs != [] {
      TrailingJoin(xs);
      var j := Join(xs, ',');
      assert (j + ",")[..|j|] == j;
    }
  }

  /** The id field: the ids joined by commas (and empty for no ids). */
  function IdsField(ids: seq<int>): string
  {
    if ids == [] then "" else Join(IdStrs(ids), ',')
  }

  /** One record line, without its newline: `<volume>;<ids>;<numbers>,`. */
  function RecordLine(volume: int, issues: map<int, string>): string
  {
    var ids := SortedKeys(issues.Keys);
    IntStr(volume) + ";" + IdsField(ids) + ";" + Join(Numbers(issues, ids) + [""], ',')
  }

  /** The record lines of the volumes `vs`, in that order. */
  function RecordLines(comics: map<int, map<int, string>>, vs: seq<int>): (r: seq<string>)
    requires forall i :: 0 <= i < |vs| ==> vs[i] in comics
    ensures |r| == |vs|
  {
    if vs == [] then []
    else
      var init := vs[..|vs| - 1];
      assert forall i :: 0 <= i < |init| ==> init[i] == vs[i];
      RecordLines(comics, init) + [RecordLine(vs[|vs| - 1], comics[vs[|vs| - 1]])]
  }

  /** The line of the i-th volume is the record of that volume. */
  lemma {:induction false} RecordLinesAt(comics: map<int, map<int, string>>, vs: seq<int>, i: nat)
    requires forall i :: 0 <= i < |vs| ==> vs[i] in comics
    requires i < |vs|
    ensures RecordLines(comics, vs)[i] == RecordLine(vs[i], comics[vs[i]])
    decreases |vs|
  {
    if i < |vs| - 1 {
      var init := vs[..|vs| - 1];
      RecordLinesAt(comics, init, i);
    }
  }

  function Header(endDate: string): string
  {
    "Missing;" + endDate
  }

  /** The new snapshot: the header, then one line per volume in ascending order. */
  function SnapshotText(endDate: string, comics: map<int, map<int, string>>): string
  {
    Header(endDate) + "\n" + Unlines(RecordLines(comics, SortedKeys(comics.Keys)))
  }

  /** One more issue adds its id and its number, each followed by a comma, to the two lists. */
  lemma IssueStep(issueMap: map<int, string>, ids: seq<int>, j: nat)
    requires forall i :: 0 <= i < |ids| ==> ids[i] in issueMap
    requires j < |ids|
    ensures Trailing(IdStrs(ids[..j + 1])) == Trailing(IdStrs(ids[..j])) + IntStr(ids[j]) + ","
    ensures Trailing(Numbers(issueMap, ids[..j + 1])) == Trailing(Numbers(issueMap, ids[..j])) + issueMap[ids[j]] + ","
  {
    assert ids[..j + 1] == ids[..j] + [ids[j]];
    assert IdStrs(ids[..j + 1]) == IdStrs(ids[..j]) + [IntStr(ids[j])];
    assert Numbers(issueMap, ids[..j + 1]) == Numbers(issueMap, ids[..j]) + [issueMap[ids[j]]];
    TrailingSnoc(IdStrs(ids[..j]), IntStr(ids[j]));
    TrailingSnoc(Numbers(issueMap, ids[..j]), issueMap[ids[j]]);
  }

  /** After the issue loop: the id list, trimmed when not empty, is the id field, and the numbers are the number field. */
  lemma RecordFields(issueMap: map<int, string>, ids: seq<int>)
    requires forall i :: 0 <= i < |ids| ==> ids[i] in issueMap
    ensures ids[..|ids|] == ids
    ensures var t := Trailing(IdStrs(ids));
      (t == [] ==> IdsField(ids) == t) && (t != [] ==> IdsField(ids) == t[..|t| - 1])
    ensures Trailing(Numbers(issueMap, ids)) == Join(Numbers(issueMap, ids) + [""], ',')
  {
    TrailingTrim(IdStrs(ids));
    TrailingJoin(Numbers(issueMap, ids));
  }

  /**
   * The issue loop of one volume and the trim of the id field: the ids joined
   * by commas, and the issue numbers each followed by a comma.
   */
  method WriteIssueLists(issueMap: map<int, string>, ids: seq<int>) returns (issues: string, nums: string)
    requires forall i :: 0 <= i < |ids| ==> ids[i] in issueMap
    ensures issues == IdsField(ids)
    ensures nums == Join(Numbers(issueMap, ids) + [""], ',')
  {
    issues := "";
    nums := "";
    for j := 0 to |ids|
      invariant issues == Trailing(IdStrs(ids[..j]))
      invariant nums == Trailing(Numbers(issueMap, ids[..j]))
    {
      IssueStep(issueMap, ids, j);
      issues := issues + IntStr(ids[j]) + ",";
      nums := nums + issueMap[ids[j]] + ",";
    }
    RecordFields(issueMap, ids);
    if issues != [] {
      issues := issues[..|issues| - 1];
    }
  }

  /** The body of the writing loop for one volume: its ids in ascending order, then the line. */
  method WriteRecord(volume: int, issueMap: map<int, string>) returns (line: string)
    ensures line == RecordLine(volume, issueMap) + "\n"
  {
    var ids := SortedKeys(issueMap.Keys);
    var issues, nums := WriteIssueLists(issueMap, ids);
    line := IntStr(volume) + ";" + issues + ";" + nums + "\n";
  }

  lemma TakeAll(s: seq<int>)
    ensures s[..|s|] == s
  {
  }

  /** Writing the record of one more volume appends its line to the records written so far. */
  lemma RecordsSnoc(comics: map<int, map<int, string>>, vs: seq<int>, k: nat)
    requires forall i :: 0 <= i < |vs| ==> vs[i] in comics
    requires k < |vs|
    ensures Unlines(RecordLines(comics, vs[..k + 1]))
         == Unlines(RecordLines(comics, vs[..k])) + RecordLine(vs[k], comics[vs[k]]) + "\n"
  {
    assert vs[..k + 1][..k] == vs[..k];
    UnlinesSnoc(RecordLines(comics, vs[..k]), RecordLine(vs[k], comics[vs[k]]));
  }

  /** The writing loop of the script: one line per volume, in ascending order of volume id. */
  method WriteRecords(comics: map<int, map<int, string>>) returns (records: string)
    ensures records == Unlines(RecordLines(comics, SortedKeys(comics.Keys)))
  {
    records := "";
    var sortedVolumes := SortedKeys(comics.Keys);
    TakeAll(sortedVolumes);
    for k := 0 to |sortedVolumes|
      invariant records == Unlines(RecordLines(comics, sortedVolumes[..k]))
    {
      var volume := sortedVolumes[k];
      var line := WriteRecord(volume, comics[volume]);
      RecordsSnoc(comics, sortedVolumes, k);
      records := records + line;
    }
  }

  /** The new snapshot file: the header line, then the records. */
  method WriteSnapshot(endDate: string, comics: map<int, map<int, string>>) returns (text: string)
    ensures text == SnapshotText(endDate, comics)
  {
    text := "Missing;" + endDate + "\n";
    var records := WriteRecords(comics);
    text := text + records;
  }

  /**
   * `Deleted_Comics.txt`: one line per snapshot issue that no merge
   * confirmed, in the order the loop visits them, and their count
   * `deleted_comics_cont`.
   */
  method WriteDeleted(nonRetrieved: map<int, string>) returns (order: seq<int>, text: string, deleted: nat)
    ensures forall id :: id in order <==> id in nonRetrieved
    ensures Distinct(order)
    ensures deleted == |order| == |nonRetrieved|
    ensures text == Unlines(IdStrs(order))
  {
    order := [];
    text := "";
    deleted := 0;
    var rest := nonRetrieved.Keys;
    while rest != {}
      invariant rest <= nonRetrieved.Keys
      invariant forall id :: id in order <==> id in nonRetrieved && id !in rest
      invariant Distinct(order)
      invariant deleted == |order| && |order| + |rest| == |nonRetrieved|
      invariant text == Unlines(IdStrs(order))
      decreases rest
    {
      NonEmpty(rest);
      var id :| id in rest;
      DeletedStep(nonRetrieved, order, rest, id);
      DeletedSnoc(order, id);
      text := text + IntStr(id) + "\n";
      order := order + [id];
      deleted := deleted + 1;
      rest := rest - {id};
    }
  }

  /** No id is listed twice. */
  ghost predicate Distinct(order: seq<int>)
  {
    forall i, j :: 0 <= i < j < |order| ==> order[i] != order[j]
  }

  /** Listing one more of the remaining ids keeps the deleted list exact and free of repeats. */
  lemma DeletedStep(nonRetrieved: map<int, string>, order: seq<int>, rest: set<int>, id: int)
    requires rest <= nonRetrieved.Keys && id in rest
    requires forall x :: x in order <==> x in nonRetrieved && x !in rest
    requires Distinct(order)
    requires |order| + |rest| == |nonRetrieved|
    ensures forall x :: x in order + [id] <==> x in nonRetrieved && x !in rest - {id}
    ensures Distinct(order + [id])
    ensures |order + [id]| + |rest - {id}| == |nonRetrieved|
  {
    assert id !in order;
    var next := order + [id];
    forall i, j | 0 <= i < j < |next| ensures next[i] != next[j] {
      if j == |order| {
        assert next[i] == order[i];
      } else {
        assert next[i] == order[i] && next[j] == order[j];
      }
    }
  }

  /** One more id adds its line to the deleted list. */
  lemma DeletedSnoc(order: seq<int>, id: int)
    ensures Unlines(IdStrs(order + [id])) == Unlines(IdStrs(order)) + IntStr(id) + "\n"
  {
    assert (order + [id])[..|order|] == order;
    assert IdStrs(order + [id]) == IdStrs(order) + [IntStr(id)];
    UnlinesSnoc(IdStrs(order), IntStr(id));
  }

  /** Reading `Deleted_Comics.txt` back line by line gives the ids it lists, in order. */
  lemma DeletedReadsBack(order: seq<int>)
    ensures |Lines(Unlines(IdStrs(order)))| == |order|
    ensures forall i :: 0 <= i < |order| ==> ParseInt(Lines(Unlines(IdStrs(order)))[i]) == Some(order[i])
  {
    var strs := IdStrs(order);
    assert forall l :: l in strs ==> '\n' !in l;
    LinesUnlines(strs);
    forall i | 0 <= i < |order| ensures ParseInt(strs[i]) == Some(order[i]) {
      ParseIntStr(order[i]);
    }
  }
}
