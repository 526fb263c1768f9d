/** The record normaliser: read the day's raw JSON-lines file line by line,
    extract the eight fields with chained `.get`, and keep the records whose
    sensor id and parameter tag are truthy and whose average is not None. */
module Normalise {
  import opened Wrappers
  import opened JsonValues
  import opened Retrieval

  /** The dict appended to `records` for an accepted line, before any
      coercion: every field is still a raw JSON value (None when missing). */
  datatype Extracted = Extracted(
    sensorId: Json,
    sensorName: Json,
    locationId: Json,
    state: Json,
    sensorTag: Json,
    avgValue: Json,
    datetimeFrom: Json,
    datetimeTo: Json)

  /** Absent, or present and a dict: what `.get(key, {}).get(...)` needs not
      to raise. */
  predicate DictOrAbsent(m: map<string, Json>, key: string)
  {
    key !in m || m[key].JObj?
  }

  /** The records on which every chained `.get` of the extraction succeeds. */
  predicate Extractable(rec: Json)
  {
    && rec.JObj?
    && DictOrAbsent(rec.fields, "parameter")
    && DictOrAbsent(rec.fields, "summary")
    && DictOrAbsent(rec.fields, "period")
    && ("period" in rec.fields ==>
          && DictOrAbsent(rec.fields["period"].fields, "datetimeFrom")
          && DictOrAbsent(rec.fields["period"].fields, "datetimeTo"))
  }

  /** The value at a key path through nested dicts, or None when a key on
      the way is missing: what the chain `.get(a, {}).get(b)` reads when every
      value it calls `.get` on is a dict. */
  function At(v: Json, path: seq<string>): Json
    decreases |path|
  {
    if path == [] then v
    else if v.JObj? && path[0] in v.fields then At(v.fields[path[0]], path[1..])
    else JNull
  }

  /** `v.get(outer, {}).get(inner)`: `None` when either `.get` is called on a
      non-dict. */
  function GetNested(v: Json, outer: string, inner: string): Option<Json>
  {
    match Get(v, outer, EmptyObject)
    case None => None
    case Some(mid) => Get(mid, inner, JNull)
  }

  /** `v.get(a, {}).get(b, {}).get(c)`. */
  function GetNested3(v: Json, a: string, b: string, c: string): Option<Json>
  {
    match Get(v, a, EmptyObject)
    case None => None
    case Some(mid) => GetNested(mid, b, c)
  }

  /** The field extraction of one parsed record. `None` is the uncaught
      AttributeError raised by `.get` on a non-dict. */
  function Extract(rec: Json): (r: Option<Extracted>)
    ensures r.Some? <==> Extractable(rec)
    ensures r.Some? ==>
      && r.value.sensorId == At(rec, ["sensor_id"])
      && r.value.sensorName == At(rec, ["sensor_name"])
      && r.value.locationId == At(rec, ["location_id"])
      && r.value.state == At(rec, ["state"])
      && r.value.sensorTag == At(rec, ["parameter", "name"])
      && r.value.avgValue == At(rec, ["summary", "avg"])
      && r.value.datetimeFrom == At(rec, ["period", "datetimeFrom", "utc"])
      && r.value.datetimeTo == At(rec, ["period", "datetimeTo", "utc"])
  {
    var sensorId := Get(rec, "sensor_id", JNull);
    var sensorName := Get(rec, "sensor_name", JNull);
    var locationId := Get(rec, "location_id", JNull);
    var state := Get(rec, "state", JNull);
    var sensorTag := GetNested(rec, "parameter", "name");
    var avgValue := GetNested(rec, "summary", "avg");
    var datetimeFrom := GetNested3(rec, "period", "datetimeFrom", "utc");
    var datetimeTo := GetNested3(rec, "period", "datetimeTo", "utc");
    if sensorId.None? || sensorName.None? || locationId.None? || state.None?
       || sensorTag.None? || avgValue.None? || datetimeFrom.None? || datetimeTo.None?
    then None
    else Some(Extracted(sensorId.value, sensorName.value, locationId.value, state.value,
                        sensorTag.value, avgValue.value, datetimeFrom.value, datetimeTo.value))
  }

  /** The acceptance test `sensor_id and sensor_tag and avg_value is not None`. */
  predicate Accept(e: Extracted)
  {
    Truthy(e.sensorId) && Truthy(e.sensorTag) && e.avgValue != JNull
  }

  /** Truthiness, not presence, decides: a sensor id of 0 and an empty tag
      are rejected, while an average of 0 is kept. */
  lemma AcceptEdgeCases(e: Extracted)
    ensures e.sensorId == JNum(0.0) ==> !Accept(e)
    ensures e.sensorTag == JStr("") ==> !Accept(e)
    ensures e.avgValue == JNum(0.0) && Truthy(e.sensorId) && Truthy(e.sensorTag) ==> Accept(e)
  {
  }

  /** On a path of the extraction, the chained `.get` and the `retrieval`
      helper read the same value, except that a missing last key reads as
      None in the one and as `{}` in the other. */
  lemma {:induction false} ExtractMatchesRetrieve(rec: Json)
    requires Extractable(rec)
    ensures var e := Extract(rec).value;
      && Agrees(e.sensorTag, Retrieve(rec, ["parameter", "name"]))
      && Agrees(e.avgValue, Retrieve(rec, ["summary", "avg"]))
      && Agrees(e.datetimeFrom, Retrieve(rec, ["period", "datetimeFrom", "utc"]))
      && Agrees(e.datetimeTo, Retrieve(rec, ["period", "datetimeTo", "utc"]))
  {
  }

  /** `got` (from `.get`) and `walked` (from `retrieval`) name the same value,
      or the key was missing: None against `{}`. */
  predicate Agrees(got: Json, walked: Json)
  {
    walked == got || (got == JNull && walked == EmptyObject)
  }

  /** What one line of the raw file does to the run. */
  datatype LineOutcome =
    | Malformed              // JSONDecodeError: warned about and skipped
    | Fails                  // AttributeError: not caught, the run dies
    | Rejected               // parsed and extracted, but not accepted
    | Kept(row: Extracted)   // appended to `records`

  /** `parse` stands for `json.loads`; `None` is a JSONDecodeError. */
  function Classify(line: Line, parse: Line -> Option<Json>): (o: LineOutcome)
    ensures o.Malformed? <==> parse(line).None?
    ensures o.Fails? <==> parse(line).Some? && !Extractable(parse(line).value)
    ensures o.Kept? <==> parse(line).Some? && Extract(parse(line).value).Some? && Accept(Extract(parse(line).value).value)
    ensures o.Kept? ==> Some(o.row) == Extract(parse(line).value)
  {
    match parse(line)
    case None => Malformed
    case Some(rec) =>
      match Extract(rec)
      case None => Fails
      case Some(e) => if Accept(e) then Kept(e) else Rejected
  }

  /** The state of the loop: the records so far and the number of warnings,
      or the run having died on an AttributeError. */
  datatype Scan =
    | Scanned(records: seq<Extracted>, malformed: nat)
    | Crashed(malformed: nat)

  function Step(s: Scan, o: LineOutcome): Scan
  {
    match s
    case Crashed(_) => s
    case Scanned(records, malformed) =>
      match o
      case Malformed => Scanned(records, malformed + 1)
      case Fails => Crashed(malformed)
      case Rejected => s
      case Kept(row) => Scanned(records + [row], malformed)
  }

  /** The loop over the file's lines, as a function of the lines read so far. */
  function ScanLines(lines: seq<Line>, parse: Line -> Option<Json>): Scan
  {
    if lines == [] then Scanned([], 0)
    else Step(ScanLines(lines[..|lines| - 1], parse), Classify(lines[|lines| - 1], parse))
  }

  /** Once the run has died, no later line changes that. */
  lemma {:induction false} CrashPersists(lines: seq<Line>, i: nat, parse: Line -> Option<Json>)
    requires i <= |lines| && ScanLines(lines[..i], parse).Crashed?
    ensures ScanLines(lines, parse) == ScanLines(lines[..i], parse)
    decreases |lines| - i
  {
    if i < |lines| {
      assert lines[..i + 1][..i] == lines[..i];
      CrashPersists(lines, i + 1, parse);
    } else {
      assert lines[..i] == lines;
    }
  }

  /** The line-by-line loop that fills `records`. */
  method CollectRecords(lines: seq<Line>, parse: Line -> Option<Json>) returns (s: Scan)
    ensures s == ScanLines(lines, parse)
  {
    var records: seq<Extracted> := [];
    var malformed: nat := 0;
    var i := 0;
    while i < |lines|
      invariant 0 <= i <= |lines|
      invariant ScanLines(lines[..i], parse) == Scanned(records, malformed)
    {
      assert lines[..i + 1][..i] == lines[..i];
      var parsed := parse(lines[i]);
      if parsed.None? {
        malformed := malformed + 1;
      } else {
        var extracted := Extract(parsed.value);
        if extracted.None? {
          CrashPersists(lines, i + 1, parse);
          return Crashed(malformed);
        }
        var e := extracted.value;
        if Accept(e) {
          records := records + [e];
        }
      }
      i := i + 1;
    }
    assert lines[..i] == lines;
    s := Scanned(records, malformed);
  }

  /** Reference definition of the accepted records: the kept lines' rows, in
      line order. */
  function KeptRows(lines: seq<Line>, parse: Line -> Option<Json>): (rows: seq<Extracted>)
    ensures |rows| <= |lines|
    ensures forall r :: r in rows ==> Accept(r)
    ensures forall r :: r in rows ==> exists i :: 0 <= i < |lines| && Classify(lines[i], parse) == Kept(r)
    ensures forall i :: 0 <= i < |lines| && Classify(lines[i], parse).Kept? ==> Classify(lines[i], parse).row in rows
  {
    if lines == [] then []
    else
      var rest := KeptRows(lines[1..], parse);
      assert forall i :: 1 <= i < |lines| ==> lines[i] == lines[1..][i - 1];
      match Classify(lines[0], parse)
      case Kept(row) => [row] + rest
      case _ => rest
  }

  /** Number of lines that fail to parse. */
  function MalformedCount(lines: seq<Line>, parse: Line -> Option<Json>): (n: nat)
    ensures n <= |lines|
  {
    if lines == [] then 0
    else (if parse(lines[0]).None? then 1 else 0) + MalformedCount(lines[1..], parse)
  }

  /** Keeping rows is order-preserving: the rows of a file are the rows of its
      first part followed by the rows of the rest. */
  lemma {:induction false} KeptRowsAppend(a: seq<Line>, b: seq<Line>, parse: Line -> Option<Json>)
    ensures KeptRows(a + b, parse) == KeptRows(a, parse) + KeptRows(b, parse)
    ensures MalformedCount(a + b, parse) == MalformedCount(a, parse) + MalformedCount(b, parse)
    decreases |a|
  {
    if a == [] {
      assert a + b == b;
    } else {
      assert (a + b)[0] == a[0] && (a + b)[1..] == a[1..] + b;
      KeptRowsAppend(a[1..], b, parse);
    }
  }

  /** The loop dies exactly when some line parses but raises AttributeError. */
  lemma {:induction false} ScanCrashedIff(lines: seq<Line>, parse: Line -> Option<Json>)
    ensures ScanLines(lines, parse).Crashed? <==> exists i :: 0 <= i < |lines| && Classify(lines[i], parse).Fails?
    decreases |lines|
  {
    if lines != [] {
      var init := lines[..|lines| - 1];
      ScanCrashedIff(init, parse);
      forall i | 0 <= i < |init| ensures init[i] == lines[i] { }
    }
  }

  /** When the loop completes, every malformed line has been skipped with a
      warning and the records are exactly the kept rows, in line order. */
  lemma {:induction false} ScanCompleted(lines: seq<Line>, parse: Line -> Option<Json>)
    requires ScanLines(lines, parse).Scanned?
    ensures ScanLines(lines, parse) == Scanned(KeptRows(lines, parse), MalformedCount(lines, parse))
    decreases |lines|
  {
    if lines != [] {
      var init := lines[..|lines| - 1];
      var last := lines[|lines| - 1];
      ScanCompleted(init, parse);
      assert init + [last] == lines;
      KeptRowsAppend(init, [last], parse);
      assert [last][1..] == [];
    }
  }

  /** The valid record of the example below. */
  const ExampleRecord: Json := JObj(map[
    "sensor_id" := JNum(1.0),
    "parameter" := JObj(map["name" := JStr("pm25")]),
    "summary" := JObj(map["avg" := JNum(12.3)]),
    "period" := JObj(map["datetimeFrom" := JObj(map["utc" := JStr("2025-09-01T00:00:00Z")])])])

  /** Its extraction: the missing name, location and state and the missing
      end time read as None. */
  lemma ExampleRecordExtracts()
    ensures Extract(ExampleRecord) == Some(Extracted(
      JNum(1.0), JNull, JNull, JNull, JStr("pm25"), JNum(12.3), JStr("2025-09-01T00:00:00Z"), JNull))
  {
    var rec := ExampleRecord;
    assert Extractable(rec);
    assert ["parameter", "name"][1..] == ["name"] && ["summary", "avg"][1..] == ["avg"];
    assert ["period", "datetimeFrom", "utc"][1..] == ["datetimeFrom", "utc"];
    assert ["period", "datetimeTo", "utc"][1..] == ["datetimeTo", "utc"];
    assert ["datetimeFrom", "utc"][1..] == ["utc"] && ["datetimeTo", "utc"][1..] == ["utc"];
    assert ["name"][1..] == [] && ["avg"][1..] == [] && ["utc"][1..] == [];
    assert At(rec, ["period", "datetimeTo", "utc"]) == JNull;
  }

  /** The example of a raw file with one valid record and one line of invalid
      JSON: exactly one row comes out, and one warning is logged. */
  lemma OneValidOneMalformed(valid: Line, broken: Line, parse: Line -> Option<Json>)
    requires parse(broken) == None
    requires parse(valid) == Some(ExampleRecord)
    ensures ScanLines([valid, broken], parse) == Scanned([Extracted(
      JNum(1.0), JNull, JNull, JNull, JStr("pm25"), JNum(12.3), JStr("2025-09-01T00:00:00Z"), JNull)], 1)
  {
    ExampleRecordExtracts();
    var row := Extracted(JNum(1.0), JNull, JNull, JNull, JStr("pm25"), JNum(12.3), JStr("2025-09-01T00:00:00Z"), JNull);
    assert Classify(valid, parse) == Kept(row);
    assert [valid][..0] == [];
    assert ScanLines([valid], parse) == Scanned([row], 0);
    assert [valid, broken][..1] == [valid];
  }
}
