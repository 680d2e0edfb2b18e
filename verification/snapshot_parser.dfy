/**
 * Reading the previous snapshot (`<date>_latest.mcl`) into the two
 * dictionaries `issues_number` (issue id to issue number) and `issues_volume`
 * (issue id to volume id), counting repeated issue ids on the way.
 *
 * A snapshot is a header line `Missing;<date>` followed by one record per
 * line, `<volume id>;<issue id>,<issue id>,...;<number>,<number>,...`. The
 * i-th issue id is paired with the i-th issue number.
 */
module SnapshotParser {
  import opened Text

  /** `issues_number`, `issues_volume` and the duplicate counter `cont`. */
  datatype Db = Db(numbers: map<int, string>, volumes: map<int, int>, duplicates: nat)

  const Empty := Db(map[], map[], 0)

  /** The exception that stops the script while reading, with its 1-based line number. */
  datatype ParseError =
    | BadInteger(line: nat)    // ValueError from int() on the volume id or an issue id
    | MissingField(line: nat)  // IndexError: the record has fewer than three fields
    | EmptyIdList(line: nat)   // IndexError: the issue id field is empty
    | QuotedIdList(line: nat)  // IndexError: the id field starts with a quote
    | MissingLabel(line: nat)  // IndexError: fewer issue numbers than issue ids

  datatype Parsed<T> = Ok(value: T) | Err(error: ParseError)

  /** One record: its volume, its issue ids and all of its issue numbers. */
  datatype Record = Record(volume: int, ids: seq<int>, labels: seq<string>)

  /** An issue number that can be written into a record and read back unchanged. */
  predicate Clean(number: string)
  {
    ',' !in number && ';' !in number && '\n' !in number
  }

  predicate AllClean(numbers: map<int, string>)
  {
    forall id :: id in numbers ==> Clean(numbers[id])
  }

  /**
   * Converts the issue ids of one record, in order, checking for each one
   * that it is an integer and that an issue number stands at its position.
   */
  function ParseIdList(fields: seq<string>, labelCount: nat, line: nat): (r: Parsed<seq<int>>)
    ensures r.Ok? <==> |fields| <= labelCount && forall i :: 0 <= i < |fields| ==> ParseInt(fields[i]).Some?
    ensures r.Ok? ==> |r.value| == |fields|
    ensures r.Ok? ==> forall i :: 0 <= i < |fields| ==> ParseInt(fields[i]) == Some(r.value[i])
    ensures r.Err? ==> r.error == BadInteger(line) || r.error == MissingLabel(line)
  {
    if fields == [] then Ok([])
    else
      match ParseInt(fields[0])
      case None => Err(BadInteger(line))
      case Some(id) =>
        if labelCount == 0 then Err(MissingLabel(line))
        else
          match ParseIdList(fields[1..], labelCount - 1, line)
          case Err(e) => Err(e)
          case Ok(ids) =>
            assert forall i :: 1 <= i < |fields| ==> fields[1..][i - 1] == fields[i];
            Ok([id] + ids)
  }

  /**
   * Splits one line on `;` and its second and third fields on `,`. Fields
   * after the third are ignored. The quote test raises whenever the id field
   * starts with a quote, since it reads one past the end of the field.
   */
  function ParseRecord(text: string, line: nat): (r: Parsed<Record>)
    ensures r.Ok? ==> |r.value.ids| <= |r.value.labels|
    ensures r.Ok? && '\n' !in text ==> forall l :: l in r.value.labels ==> Clean(l)
  {
    var fields := Split(text, ';');
    match ParseInt(fields[0])
    case None => Err(BadInteger(line))
    case Some(volume) =>
      if |fields| < 2 then Err(MissingField(line))
      else if fields[1] == "" then Err(EmptyIdList(line))
      else if fields[1][0] == '"' then Err(QuotedIdList(line))
      else if |fields| < 3 then Err(MissingField(line))
      else
        var labels := Split(fields[2], ',');
        match ParseIdList(Split(fields[1], ','), |labels|, line)
        case Err(e) => Err(e)
        case Ok(ids) =>
          assert fields[2] in fields;
          SplitKeepsOut(text, ';', '\n');
          SplitKeepsOut(fields[2], ',', '\n');
          SplitKeepsOut(fields[2], ',', ';');
          Ok(Record(volume, ids, labels))
  }

  /** Stores the pairs of `rec` from position `i` on, as the inner loop does. */
  function StoreFrom(db: Db, rec: Record, i: nat): Db
    requires i <= |rec.ids| <= |rec.labels|
    decreases |rec.ids| - i
  {
    if i == |rec.ids| then db
    else
      var id := rec.ids[i];
      var cont := if id in db.numbers then db.duplicates + 1 else db.duplicates;
      StoreFrom(Db(db.numbers[id := rec.labels[i]], db.volumes[id := rec.volume], cont), rec, i + 1)
  }

  /** Reads the records `lines`, the first of which is line `first` of the file. */
  function Load(db: Db, lines: seq<string>, first: nat): Parsed<Db>
    decreases |lines|
  {
    if lines == [] then Ok(db)
    else
      match ParseRecord(lines[0], first)
      case Err(e) => Err(e)
      case Ok(rec) => Load(StoreFrom(db, rec, 0), lines[1..], first + 1)
  }

  /** The whole file: the header line is skipped whatever it holds. */
  function Parse(text: string): Parsed<Db>
  {
    var lines := Lines(text);
    if lines == [] then Ok(Empty) else Load(Empty, lines[1..], 2)
  }

  /** The inner loop of the script: stores each id of one record with its issue number and volume. */
  method StoreRecord(numbers0: map<int, string>, volumes0: map<int, int>, cont0: nat, rec: Record)
    returns (numbers: map<int, string>, volumes: map<int, int>, cont: nat)
    requires |rec.ids| <= |rec.labels|
    requires numbers0.Keys == volumes0.Keys && AllClean(numbers0)
    requires forall l :: l in rec.labels ==> Clean(l)
    ensures Db(numbers, volumes, cont) == StoreFrom(Db(numbers0, volumes0, cont0), rec, 0)
    ensures numbers.Keys == volumes.Keys && AllClean(numbers)
  {
    numbers, volumes, cont := numbers0, volumes0, cont0;
    for i := 0 to |rec.ids|
      invariant StoreFrom(Db(numbers, volumes, cont), rec, i) == StoreFrom(Db(numbers0, volumes0, cont0), rec, 0)
      invariant numbers.Keys == volumes.Keys && AllClean(numbers)
    {
      var id := rec.ids[i];
      if id in numbers {
        cont := cont + 1;
      }
      assert rec.labels[i] in rec.labels;
      numbers := numbers[id := rec.labels[i]];
      volumes := volumes[id := rec.volume];
    }
  }

  /** The reading loop of the script, with its header flag and its nested loop. */
  method ParseSnapshot(text: string) returns (r: Parsed<Db>)
    ensures r == Parse(text)
    ensures r.Ok? ==> r.value.numbers.Keys == r.value.volumes.Keys
    ensures r.Ok? ==> AllClean(r.value.numbers)
  {
    var lines := Lines(text);
    var numbers: map<int, string> := map[];
    var volumes: map<int, int> := map[];
    var cont: nat := 0;
    var skipHeader := true;
    for k := 0 to |lines|
      invariant skipHeader <==> k == 0
      invariant k == 0 ==> numbers == map[] && volumes == map[] && cont == 0
      invariant k > 0 ==> Load(Db(numbers, volumes, cont), lines[k..], k + 1) == Parse(text)
      invariant numbers.Keys == volumes.Keys && AllClean(numbers)
    {
      if skipHeader {
        skipHeader := false;
        assert lines[1..] == lines[k + 1..];
        continue;
      }
      assert lines[k] in lines;
      var parsed := ParseRecord(lines[k], k + 1);
      if parsed.Err? {
        return Err(parsed.error);
      }
      numbers, volumes, cont := StoreRecord(numbers, volumes, cont, parsed.value);
      assert lines[k..][1..] == lines[k + 1..];
    }
    if |lines| == 0 {
      return Ok(Empty);
    }
    return Ok(Db(numbers, volumes, cont));
  }

  /** After storing a record, the keys are the earlier keys and the record's ids. */
  lemma {:induction false} StoreAdds(db: Db, rec: Record, i: nat)
    requires i <= |rec.ids| <= |rec.labels|
    ensures var r := StoreFrom(db, rec, i);
      && (forall id :: id in r.numbers <==> id in db.numbers || id in rec.ids[i..])
      && (forall id :: id in r.volumes <==> id in db.volumes || id in rec.ids[i..])
    decreases |rec.ids| - i
  {
    if i < |rec.ids| {
      var id := rec.ids[i];
      var cont := if id in db.numbers then db.duplicates + 1 else db.duplicates;
      var next := Db(db.numbers[id := rec.labels[i]], db.volumes[id := rec.volume], cont);
      StoreAdds(next, rec, i + 1);
      assert rec.ids[i..] == [id] + rec.ids[i + 1..];
    }
  }

  /** A key the record does not mention keeps its issue number and volume. */
  lemma {:induction false} StoreKeeps(db: Db, rec: Record, i: nat)
    requires i <= |rec.ids| <= |rec.labels|
    ensures var r := StoreFrom(db, rec, i);
      && (forall id :: id in db.numbers && id !in rec.ids[i..] ==> id in r.numbers && r.numbers[id] == db.numbers[id])
      && (forall id :: id in db.volumes && id !in rec.ids[i..] ==> id in r.volumes && r.volumes[id] == db.volumes[id])
    decreases |rec.ids| - i
  {
    if i < |rec.ids| {
      var id := rec.ids[i];
      var cont := if id in db.numbers then db.duplicates + 1 else db.duplicates;
      var next := Db(db.numbers[id := rec.labels[i]], db.volumes[id := rec.volume], cont);
      StoreKeeps(next, rec, i + 1);
      assert rec.ids[i..] == [id] + rec.ids[i + 1..];
    }
  }

  /** The last occurrence of an id in the record decides its issue number, and its volume is the record's. */
  lemma {:induction false} StoreLast(db: Db, rec: Record, i: nat)
    requires i <= |rec.ids| <= |rec.labels|
    ensures var r := StoreFrom(db, rec, i);
      forall j :: i <= j < |rec.ids| && rec.ids[j] !in rec.ids[j + 1..] ==>
        && rec.ids[j] in r.numbers && r.numbers[rec.ids[j]] == rec.labels[j]
        && rec.ids[j] in r.volumes && r.volumes[rec.ids[j]] == rec.volume
    decreases |rec.ids| - i
  {
    if i < |rec.ids| {
      var id := rec.ids[i];
      var cont := if id in db.numbers then db.duplicates + 1 else db.duplicates;
      var next := Db(db.numbers[id := rec.labels[i]], db.volumes[id := rec.volume], cont);
      var r := StoreFrom(next, rec, i + 1);
      assert StoreFrom(db, rec, i) == r;
      StoreLast(next, rec, i + 1);
      StoreKeeps(next, rec, i + 1);
      forall j | i <= j < |rec.ids| && rec.ids[j] !in rec.ids[j + 1..]
        ensures && rec.ids[j] in r.numbers && r.numbers[rec.ids[j]] == rec.labels[j]
                && rec.ids[j] in r.volumes && r.volumes[rec.ids[j]] == rec.volume
      {
        if j == i {
          assert id in next.numbers && id in next.volumes && id !in rec.ids[i + 1..];
        }
      }
    }
  }

  /** `cont` grows by the number of ids of the record that were already keys when stored. */
  lemma {:induction false} StoreCounts(db: Db, rec: Record, i: nat)
    requires i <= |rec.ids| <= |rec.labels|
    ensures var r := StoreFrom(db, rec, i);
      r.duplicates + |r.numbers| == db.duplicates + |db.numbers| + (|rec.ids| - i)
    decreases |rec.ids| - i
  {
    if i < |rec.ids| {
      var id := rec.ids[i];
      var cont := if id in db.numbers then db.duplicates + 1 else db.duplicates;
      var next := Db(db.numbers[id := rec.labels[i]], db.volumes[id := rec.volume], cont);
      StoreCounts(next, rec, i + 1);
      if id !in db.numbers {
        assert next.numbers.Keys == db.numbers.Keys + {id};
      } else {
        assert next.numbers.Keys == db.numbers.Keys;
      }
    }
  }

  /** Storing a record whose ids are distinct and all new counts no duplicate. */
  lemma {:induction false} StoreFresh(db: Db, rec: Record, i: nat)
    requires i <= |rec.ids| <= |rec.labels|
    requires forall j, k :: i <= j < k < |rec.ids| ==> rec.ids[j] != rec.ids[k]
    requires forall j :: i <= j < |rec.ids| ==> rec.ids[j] !in db.numbers
    ensures StoreFrom(db, rec, i).duplicates == db.duplicates
    decreases |rec.ids| - i
  {
    if i < |rec.ids| {
      var id := rec.ids[i];
      var next := Db(db.numbers[id := rec.labels[i]], db.volumes[id := rec.volume], db.duplicates);
      StoreFresh(next, rec, i + 1);
    }
  }

  /** The header line is skipped: whatever it says, the snapshot reads the same. */
  lemma HeaderIgnored(header1: string, header2: string, body: string)
    requires '\n' !in header1 && '\n' !in header2
    ensures Parse(header1 + "\n" + body) == Parse(header2 + "\n" + body)
  {
    LinesCons(header1, body);
    LinesCons(header2, body);
  }
}
