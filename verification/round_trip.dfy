/**
 * The snapshot the script writes is one it can read again: reading it back
 * gives the same two dictionaries and counts no repeated issue id.
 */
module RoundTrip {
  import opened Text
  import opened SnapshotParser
  import opened SnapshotWriter

  /** The entries of the issues whose volume is one of `done`. */
  function NumbersIn(numbers: map<int, string>, volumes: map<int, int>, done: seq<int>): map<int, string>
    requires numbers.Keys == volumes.Keys
  {
    map id | id in numbers && volumes[id] in done :: numbers[id]
  }

  function VolumesIn(numbers: map<int, string>, volumes: map<int, int>, done: seq<int>): map<int, int>
    requires numbers.Keys == volumes.Keys
  {
    map id | id in numbers && volumes[id] in done :: volumes[id]
  }

  /** A record line holds no line break. */
  lemma RecordLineOneLine(volume: int, issues: map<int, string>)
    requires forall id :: id in issues ==> Clean(issues[id])
    ensures '\n' !in RecordLine(volume, issues)
  {
    var ids := SortedKeys(issues.Keys);
    var strs := IdStrs(ids);
    var nums := Numbers(issues, ids) + [""];
    if ids != [] {
      JoinChars(strs, ',', '\n');
    }
    JoinChars(nums, ',', '\n');
  }

  /** A line of a volume field and two well-formed list fields parses to their record. */
  lemma ParseFields(head: string, f1: string, f2: string, line: nat,
                    volume: int, strs: seq<string>, ids: seq<int>, labels: seq<string>)
    requires ';' !in head && ';' !in f1 && ';' !in f2
    requires ParseInt(head) == Some(volume)
    requires f1 != [] && f1[0] != '"'
    requires Split(f1, ',') == strs && Split(f2, ',') == labels
    requires |strs| == |ids| <= |labels|
    requires forall i :: 0 <= i < |strs| ==> strs[i] == IntStr(ids[i])
    ensures ParseRecord(head + ";" + f1 + ";" + f2, line) == Ok(Record(volume, ids, labels))
  {
    SplitThree(head, f1, f2, ';');
    forall i | 0 <= i < |strs| ensures ParseInt(strs[i]) == Some(ids[i]) {
      ParseIntStr(ids[i]);
    }
    var r := ParseIdList(strs, |labels|, line);
    assert r.Ok?;
    assert r.value == ids;
  }

  /** The id field of a non-empty volume: not empty, starting with a digit or a sign, splitting back into the `str(id)`s. */
  lemma IdsFieldParses(ids: seq<int>)
    requires ids != []
    ensures var f1 := IdsField(ids);
      && f1 != [] && f1[0] != '"' && ';' !in f1
      && Split(f1, ',') == IdStrs(ids)
  {
    var strs := IdStrs(ids);
    assert forall p :: p in strs ==> ';' !in p && ',' !in p;
    JoinChars(strs, ',', ';');
    JoinPrefix(strs, ',');
    SplitJoin(strs, ',');
  }

  /** The number field: issue numbers each followed by a comma split back into them and one empty text. */
  lemma NumbersFieldParses(nums: seq<string>)
    requires forall i :: 0 <= i < |nums| ==> Clean(nums[i])
    ensures ';' !in Join(nums + [""], ',')
    ensures Split(Join(nums + [""], ','), ',') == nums + [""]
  {
    var labels := nums + [""];
    assert forall p :: p in labels ==> ';' !in p && ',' !in p;
    JoinChars(labels, ',', ';');
    SplitJoin(labels, ',');
  }

  /**
   * A record line for a volume with at least one issue reads back as that
   * volume, its issue ids in ascending order and its issue numbers followed by
   * the empty text after the trailing comma.
   */
  lemma RecordLineParses(volume: int, issues: map<int, string>, line: nat)
    requires issues != map[]
    requires forall id :: id in issues ==> Clean(issues[id])
    ensures var ids := SortedKeys(issues.Keys);
      ParseRecord(RecordLine(volume, issues), line) == Ok(Record(volume, ids, Numbers(issues, ids) + [""]))
  {
    var ids := SortedKeys(issues.Keys);
    assert |ids| > 0 by {
      var id :| id in issues;
      assert |issues.Keys| > 0;
    }
    var nums := Numbers(issues, ids);
    IdsFieldParses(ids);
    NumbersFieldParses(nums);
    ParseIntStr(volume);
    ParseFields(IntStr(volume), IdsField(ids), Join(nums + [""], ','), line,
                volume, IdStrs(ids), ids, nums + [""]);
  }

  /** What storing a record needs to know about it: the issues of its volume, each once, with their numbers. */
  ghost predicate VolumeRecord(numbers: map<int, string>, volumes: map<int, int>, rec: Record)
    requires numbers.Keys == volumes.Keys
  {
    && |rec.ids| <= |rec.labels|
    && (forall j, k :: 0 <= j < k < |rec.ids| ==> rec.ids[j] != rec.ids[k])
    && (forall j :: 0 <= j < |rec.ids| ==>
          rec.ids[j] in numbers && volumes[rec.ids[j]] == rec.volume && rec.labels[j] == numbers[rec.ids[j]])
    && (forall id :: id in numbers && volumes[id] == rec.volume ==> id in rec.ids)
  }

  /** Storing a volume's record adds exactly the issues of that volume as keys of both dictionaries. */
  lemma StoreKeys(numbers: map<int, string>, volumes: map<int, int>, done: seq<int>, rec: Record)
    requires numbers.Keys == volumes.Keys && VolumeRecord(numbers, volumes, rec)
    ensures var r := StoreFrom(Db(NumbersIn(numbers, volumes, done), VolumesIn(numbers, volumes, done), 0), rec, 0);
      && r.numbers.Keys == NumbersIn(numbers, volumes, done + [rec.volume]).Keys
      && r.volumes.Keys == r.numbers.Keys
  {
    var db := Db(NumbersIn(numbers, volumes, done), VolumesIn(numbers, volumes, done), 0);
    var r := StoreFrom(db, rec, 0);
    var target := NumbersIn(numbers, volumes, done + [rec.volume]);
    StoreAdds(db, rec, 0);
    assert rec.ids[0..] == rec.ids;
    forall id ensures id in r.numbers <==> id in target {
      if id in numbers {
        assert volumes[id] in done + [rec.volume] <==> volumes[id] in done || volumes[id] == rec.volume;
      }
    }
    forall id ensures id in r.volumes <==> id in r.numbers {
      assert id in db.volumes <==> id in db.numbers;
    }
  }

  /** Storing a volume's record gives each key its catalog number and volume. */
  lemma StoreValues(numbers: map<int, string>, volumes: map<int, int>, done: seq<int>, rec: Record)
    requires numbers.Keys == volumes.Keys && VolumeRecord(numbers, volumes, rec)
    ensures var r := StoreFrom(Db(NumbersIn(numbers, volumes, done), VolumesIn(numbers, volumes, done), 0), rec, 0);
      forall id :: id in r.numbers && id in r.volumes ==>
        id in numbers && r.numbers[id] == numbers[id] && r.volumes[id] == volumes[id]
  {
    var db := Db(NumbersIn(numbers, volumes, done), VolumesIn(numbers, volumes, done), 0);
    var r := StoreFrom(db, rec, 0);
    StoreAdds(db, rec, 0);
    StoreLast(db, rec, 0);
    StoreKeeps(db, rec, 0);
    assert rec.ids[0..] == rec.ids;
    forall id | id in r.numbers && id in r.volumes
      ensures id in numbers && r.numbers[id] == numbers[id] && r.volumes[id] == volumes[id]
    {
      if id in rec.ids {
        var j :| 0 <= j < |rec.ids| && rec.ids[j] == id;
        assert rec.ids[j] !in rec.ids[j + 1..];
      } else {
        assert id in db.numbers && id in db.volumes;
      }
    }
  }

  /**
   * Storing the record of a volume not stored before adds exactly the issues
   * of that volume, with their numbers and volume, and counts no duplicate.
   */
  lemma StoreVolume(numbers: map<int, string>, volumes: map<int, int>, done: seq<int>, rec: Record)
    requires numbers.Keys == volumes.Keys && VolumeRecord(numbers, volumes, rec)
    requires rec.volume !in done
    ensures var db := Db(NumbersIn(numbers, volumes, done), VolumesIn(numbers, volumes, done), 0);
      StoreFrom(db, rec, 0)
        == Db(NumbersIn(numbers, volumes, done + [rec.volume]), VolumesIn(numbers, volumes, done + [rec.volume]), 0)
  {
    var db := Db(NumbersIn(numbers, volumes, done), VolumesIn(numbers, volumes, done), 0);
    var r := StoreFrom(db, rec, 0);
    var done' := done + [rec.volume];
    StoreKeys(numbers, volumes, done, rec);
    StoreValues(numbers, volumes, done, rec);
    var ns, vs := NumbersIn(numbers, volumes, done'), VolumesIn(numbers, volumes, done');
    forall id | id in r.numbers ensures r.numbers[id] == ns[id] && r.volumes[id] == vs[id] {
      assert id in r.volumes;
    }
    assert r.numbers == ns;
    assert r.volumes == vs;
    StoreFresh(db, rec, 0);
  }

  /** `comics` groups the issues by volume: the property the grouping guarantees. */
  ghost predicate Grouping(numbers: map<int, string>, volumes: map<int, int>, comics: map<int, map<int, string>>)
    requires numbers.Keys == volumes.Keys
  {
    && (forall id :: id in numbers ==>
          volumes[id] in comics && id in comics[volumes[id]] && comics[volumes[id]][id] == numbers[id])
    && (forall v, id :: v in comics && id in comics[v] ==>
          id in numbers && volumes[id] == v && comics[v][id] == numbers[id])
    && (forall v :: v in comics ==> comics[v] != map[])
  }

  /** The record written for a volume of the grouping is that volume's record. */
  lemma GroupRecord(numbers: map<int, string>, volumes: map<int, int>, comics: map<int, map<int, string>>, v: int)
    requires numbers.Keys == volumes.Keys && Grouping(numbers, volumes, comics)
    requires v in comics
    ensures var ids := SortedKeys(comics[v].Keys);
      VolumeRecord(numbers, volumes, Record(v, ids, Numbers(comics[v], ids) + [""]))
  {
    var issues := comics[v];
    var ids := SortedKeys(issues.Keys);
    var labels := Numbers(issues, ids) + [""];
    SortedKeysAscending(issues.Keys);
    forall j | 0 <= j < |ids|
      ensures ids[j] in numbers && volumes[ids[j]] == v && labels[j] == numbers[ids[j]]
    {
      var id := ids[j];
      assert id in comics[v];
      assert id in numbers && volumes[id] == v && comics[v][id] == numbers[id];
      assert labels[j] == issues[id];
    }
    forall id | id in numbers && volumes[id] == v ensures id in ids {
      assert id in issues.Keys;
      SortedKeysCover(issues.Keys);
    }
  }

  lemma TakeOneMore(s: seq<int>, k: nat)
    requires k < |s|
    ensures s[..k] + [s[k]] == s[..k + 1]
  {
  }

  /** Every issue number in the grouping is one of the catalog's. */
  lemma GroupClean(numbers: map<int, string>, volumes: map<int, int>, comics: map<int, map<int, string>>, v: int)
    requires numbers.Keys == volumes.Keys && AllClean(numbers) && Grouping(numbers, volumes, comics)
    requires v in comics
    ensures comics[v] != map[]
    ensures forall id :: id in comics[v] ==> Clean(comics[v][id])
  {
    forall id | id in comics[v] ensures Clean(comics[v][id]) {
      assert id in numbers && comics[v][id] == numbers[id];
    }
  }

  /**
   * Reading the record lines from the k-th on, after the first k volumes are
   * stored, stores every volume.
   */
  lemma {:induction false} LoadVolumes(numbers: map<int, string>, volumes: map<int, int>,
                                       comics: map<int, map<int, string>>, k: nat)
    requires numbers.Keys == volumes.Keys && AllClean(numbers) && Grouping(numbers, volumes, comics)
    requires k <= |comics|
    ensures var vs := SortedKeys(comics.Keys);
      Load(Db(NumbersIn(numbers, volumes, vs[..k]), VolumesIn(numbers, volumes, vs[..k]), 0),
           RecordLines(comics, vs)[k..], k + 2)
        == Ok(Db(NumbersIn(numbers, volumes, vs), VolumesIn(numbers, volumes, vs), 0))
    decreases |comics| - k
  {
    var vs := SortedKeys(comics.Keys);
    var lines := RecordLines(comics, vs);
    assert |comics| == |comics.Keys|;
    if k == |vs| {
      assert vs[..k] == vs;
      assert lines[k..] == [];
    } else {
      LoadVolume(numbers, volumes, comics, k);
      LoadVolumes(numbers, volumes, comics, k + 1);
    }
  }

  /** Reading the k-th record line stores the k-th volume. */
  lemma LoadVolume(numbers: map<int, string>, volumes: map<int, int>, comics: map<int, map<int, string>>, k: nat)
    requires numbers.Keys == volumes.Keys && AllClean(numbers) && Grouping(numbers, volumes, comics)
    requires k < |comics|
    ensures var vs := SortedKeys(comics.Keys);
      var lines := RecordLines(comics, vs);
      Load(Db(NumbersIn(numbers, volumes, vs[..k]), VolumesIn(numbers, volumes, vs[..k]), 0), lines[k..], k + 2)
        == Load(Db(NumbersIn(numbers, volumes, vs[..k + 1]), VolumesIn(numbers, volumes, vs[..k + 1]), 0),
                lines[k + 1..], k + 3)
  {
    var vs := SortedKeys(comics.Keys);
    var lines := RecordLines(comics, vs);
    assert |comics| == |comics.Keys|;
    var v := vs[k];
    var issues := comics[v];
    var ids := SortedKeys(issues.Keys);
    var rec := Record(v, ids, Numbers(issues, ids) + [""]);
    RecordLinesAt(comics, vs, k);
    assert lines[k..][1..] == lines[k + 1..];
    GroupClean(numbers, volumes, comics, v);
    RecordLineParses(v, issues, k + 2);
    GroupRecord(numbers, volumes, comics, v);
    SortedKeysFresh(comics.Keys, k);
    StoreVolume(numbers, volumes, vs[..k], rec);
    TakeOneMore(vs, k);
  }

  /** Every issue's volume is among the volumes written. */
  lemma AllVolumesWritten(numbers: map<int, string>, volumes: map<int, int>, comics: map<int, map<int, string>>)
    requires numbers.Keys == volumes.Keys && Grouping(numbers, volumes, comics)
    ensures var vs := SortedKeys(comics.Keys);
      NumbersIn(numbers, volumes, vs) == numbers && VolumesIn(numbers, volumes, vs) == volumes
  {
    var vs := SortedKeys(comics.Keys);
    forall id | id in numbers ensures volumes[id] in vs {
      var v := volumes[id];
      assert v in comics;
      assert v in comics.Keys;
      SortedKeysCover(comics.Keys);
      assert v in SortedKeys(comics.Keys);
    }
    assert NumbersIn(numbers, volumes, vs) == numbers;
    assert VolumesIn(numbers, volumes, vs) == volumes;
  }

  /**
   * Writing the catalog as a snapshot and reading that snapshot back gives
   * the same issue numbers and volumes, with no repeated issue id, whenever
   * every issue number is writable and the end date holds no line break.
   */
  lemma WriteThenRead(endDate: string, numbers: map<int, string>, volumes: map<int, int>)
    requires numbers.Keys == volumes.Keys && AllClean(numbers)
    requires '\n' !in endDate
    ensures Parse(SnapshotText(endDate, Group(numbers, volumes))) == Ok(Db(numbers, volumes, 0))
  {
    var comics := Group(numbers, volumes);
    assert Grouping(numbers, volumes, comics);
    ReadBack(endDate, numbers, volumes, comics);
  }

  /** The lines of the snapshot: the header, then one record line per volume in ascending order. */
  lemma SnapshotLines(endDate: string, numbers: map<int, string>, volumes: map<int, int>,
                      comics: map<int, map<int, string>>)
    requires numbers.Keys == volumes.Keys && AllClean(numbers) && Grouping(numbers, volumes, comics)
    requires '\n' !in endDate
    ensures Lines(SnapshotText(endDate, comics)) == [Header(endDate)] + RecordLines(comics, SortedKeys(comics.Keys))
  {
    var vs := SortedKeys(comics.Keys);
    var lines := RecordLines(comics, vs);
    forall l | l in lines ensures '\n' !in l {
      var i :| 0 <= i < |lines| && lines[i] == l;
      RecordLinesAt(comics, vs, i);
      GroupClean(numbers, volumes, comics, vs[i]);
      RecordLineOneLine(vs[i], comics[vs[i]]);
    }
    LinesUnlines(lines);
    assert '\n' !in Header(endDate);
    LinesCons(Header(endDate), Unlines(lines));
  }

  /** Reading back the snapshot of a grouping gives the catalog it groups. */
  lemma ReadBack(endDate: string, numbers: map<int, string>, volumes: map<int, int>, comics: map<int, map<int, string>>)
    requires numbers.Keys == volumes.Keys && AllClean(numbers) && Grouping(numbers, volumes, comics)
    requires '\n' !in endDate
    ensures Parse(SnapshotText(endDate, comics)) == Ok(Db(numbers, volumes, 0))
  {
    var vs := SortedKeys(comics.Keys);
    var lines := RecordLines(comics, vs);
    SnapshotLines(endDate, numbers, volumes, comics);
    assert Lines(SnapshotText(endDate, comics))[1..] == lines;
    LoadVolumes(numbers, volumes, comics, 0);
    assert vs[..0] == [];
    assert NumbersIn(numbers, volumes, []) == map[];
    assert VolumesIn(numbers, volumes, []) == map[];
    assert lines[0..] == lines;
    AllVolumesWritten(numbers, volumes, comics);
  }
}
