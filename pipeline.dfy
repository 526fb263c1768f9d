/** The cleaning run: read the day's raw file, normalise it, coerce and
    drop incomplete rows, deduplicate, write the day's cleaned file, and fold
    the batch into the persistent store. */
module Pipeline {
  import opened Wrappers
  import opened JsonValues
  import opened RawStore
  import opened Normalise
  import opened Frame
  import opened Dedup

  /** A CSV file of rows. `None` is a file that is absent or zero bytes long:
      the store is merged only when it exists and is not empty. */
  class CsvFile {
    var content: Option<seq<Row>>

    constructor (initial: Option<seq<Row>>)
      ensures content == initial
    {
      content := initial;
    }
  }

  /** How the run ends, with the counts it logs. */
  datatype RunOutcome =
    | Died(malformed: nat)               // uncaught AttributeError
    | NoValidRecords(malformed: nat)     // SystemExit(1) before any CSV is written
    | Completed(malformed: nat, removed: nat, remaining: nat)

  /** Row `i` is complete and no complete row before it has its key: the row
      `drop_duplicates` keeps for that key after `dropna`. */
  predicate FirstCompleteOfKey(rows: seq<Row>, i: int)
    requires 0 <= i < |rows|
  {
    Complete(rows[i]) && forall j :: 0 <= j < i ==> !(Complete(rows[j]) && KeyOf(rows[j]) == KeyOf(rows[i]))
  }

  /** The first complete row of a key is the first row of that key after
      `dropna`. */
  lemma {:induction false} DropNaKeepsFirst(rows: seq<Row>, i: int)
    requires 0 <= i < |rows| && FirstCompleteOfKey(rows, i)
    ensures KeyOf(rows[i]) in KeysOf(DropNa(rows))
    ensures DropNa(rows)[FirstIndex(DropNa(rows), KeyOf(rows[i]))] == rows[i]
    decreases |rows|
  {
    var k := KeyOf(rows[i]);
    var head, tail := rows[0], rows[1..];
    assert rows == [head] + tail;
    var rest := DropNa(tail);
    if i == 0 {
      KeysOfCons(head, rest);
    } else {
      assert tail[i - 1] == rows[i];
      forall j | 0 <= j < i - 1 ensures !(Complete(tail[j]) && KeyOf(tail[j]) == k) {
        assert tail[j] == rows[j + 1];
      }
      DropNaKeepsFirst(tail, i - 1);
      if Complete(head) {
        var kept := [head] + rest;
        assert DropNa(rows) == kept;
        assert kept[1..] == rest;
        FirstIndexTail(kept, k);
      }
    }
  }

  /** The day's cleaned rows: coercion, `dropna`, then `drop_duplicates`. */
  function CleanBatch(records: seq<Extracted>, toNumber: Json -> Option<real>, toTime: Json -> Option<Timestamp>): (batch: seq<Row>)
    ensures |batch| <= |records|
    ensures UniqueKeys(batch)
    ensures forall r :: r in batch ==> Complete(r)
    ensures forall r :: r in batch ==> exists i :: 0 <= i < |records| && r == Coerce(records[i], toNumber, toTime)
    ensures forall i :: 0 <= i < |records| && Complete(Coerce(records[i], toNumber, toTime)) ==>
      KeyOf(Coerce(records[i], toNumber, toTime)) in KeysOf(batch)
    ensures IsSubsequence(batch, CoerceAll(records, toNumber, toTime))
    ensures forall i :: 0 <= i < |records| && FirstCompleteOfKey(CoerceAll(records, toNumber, toTime), i) ==>
      Coerce(records[i], toNumber, toTime) in batch
    ensures InFirstOrder(batch, DropNa(CoerceAll(records, toNumber, toTime)))
  {
    var rows := CoerceAll(records, toNumber, toTime);
    var kept := DropNa(rows);
    var batch := DropDuplicates(kept);
    SubsequenceMembers(kept, rows);
    SubsequenceMembers(batch, kept);
    SubsequenceTrans(batch, kept, rows);
    forall i | 0 <= i < |records| && Complete(Coerce(records[i], toNumber, toTime))
      ensures KeyOf(Coerce(records[i], toNumber, toTime)) in KeysOf(batch)
    {
      assert rows[i] in rows && rows[i] in kept;
    }
    forall i | 0 <= i < |records| && FirstCompleteOfKey(rows, i)
      ensures Coerce(records[i], toNumber, toTime) in batch
    {
      var k := KeyOf(rows[i]);
      DropNaKeepsFirst(rows, i);
      DedupKeepsFirst(kept, {});
      assert k in KeysOf(batch);
      var x :| x in batch && KeyOf(x) == k;
    }
    forall r | r in rows ensures exists i :: 0 <= i < |records| && r == Coerce(records[i], toNumber, toTime) {
      var i :| 0 <= i < |rows| && rows[i] == r;
    }
    batch
  }

  /** The store after the run: the merge when the store had content,
      otherwise the batch itself. */
  function StoreAfter(existing: Option<seq<Row>>, batch: seq<Row>): (store: seq<Row>)
    ensures existing.None? ==> store == batch
    ensures existing.Some? ==> KeysOf(store) == KeysOf(existing.value) + KeysOf(batch)
    ensures existing.Some? ==> forall x :: x in store && KeyOf(x) in KeysOf(existing.value) ==> x in existing.value
    ensures existing.Some? ==> UniqueKeys(store) && IsSubsequence(store, existing.value + batch)
    ensures existing.Some? ==> InFirstOrder(store, existing.value + batch)
    ensures existing.Some? && UniqueKeys(existing.value) ==>
      store == existing.value + DedupFrom(batch, KeysOf(existing.value))
  {
    if existing.Some? then
      ExistingWins(existing.value, batch);
      Merge(existing.value, batch)
    else batch
  }

  /** Main.py from the opening of the day's raw file to the final
      `to_csv` of the store. `daily` is `cleaned_data_<today>.csv`, `store`
      is `data_store.csv`; `parse`, `toNumber` and `toTime` stand for
      `json.loads`, `pd.to_numeric` and `pd.to_datetime`. */
  method CleanAndMerge(raw: seq<Line>, parse: Line -> Option<Json>,
                       toNumber: Json -> Option<real>, toTime: Json -> Option<Timestamp>,
                       daily: CsvFile, store: CsvFile) returns (outcome: RunOutcome)
    requires daily != store
    modifies daily, store
    ensures ScanLines(raw, parse).Crashed? ==>
      outcome == Died(ScanLines(raw, parse).malformed) && unchanged(daily, store)
    ensures ScanLines(raw, parse) == Scanned([], ScanLines(raw, parse).malformed) ==>
      outcome == NoValidRecords(ScanLines(raw, parse).malformed) && unchanged(daily, store)
    ensures ScanLines(raw, parse).Scanned? && ScanLines(raw, parse).records != [] ==>
      var records := ScanLines(raw, parse).records;
      var batch := CleanBatch(records, toNumber, toTime);
      && daily.content == Some(batch)
      && store.content == Some(StoreAfter(old(store.content), batch))
      && outcome == Completed(ScanLines(raw, parse).malformed, |records| - |batch|, |batch|)
  {
    var scan := CollectRecords(raw, parse);
    if scan.Crashed? {
      return Died(scan.malformed);
    }
    var records := scan.records;
    if records == [] {
      return NoValidRecords(scan.malformed);
    }
    var df := CoerceAll(records, toNumber, toTime);
    var before := |df|;
    df := DropNa(df);
    df := DropDuplicates(df);
    ghost var batch := CleanBatch(records, toNumber, toTime);
    assert df == batch;
    var after := |df|;
    daily.content := Some(df);
    if store.content.Some? {
      df := DropDuplicates(store.content.value + df);
      assert df == Merge(store.content.value, batch);
    }
    assert df == StoreAfter(store.content, batch);
    store.content := Some(df);
    outcome := Completed(scan.malformed, before - after, after);
  }

  /** Cleaning the same raw file twice leaves the store as the first run
      left it: the second merge finds every key already stored. */
  lemma RerunChangesNothing(existing: Option<seq<Row>>, batch: seq<Row>)
    requires UniqueKeys(batch)
    ensures StoreAfter(Some(StoreAfter(existing, batch)), batch) == StoreAfter(existing, batch)
  {
    if existing.Some? {
      MergeAgainAddsNothing(existing.value, batch);
    } else {
      MergeWithNothingOrItself(batch);
      DedupOfUnique(batch, {});
    }
  }

  /** A stamped record that extracts carries the stamped metadata. */
  lemma StampedRecordExtracts(rec: Json, meta: Metadata)
    requires Extract(Enrich(rec, meta)).Some?
    ensures var e := Extract(Enrich(rec, meta)).value;
      e.sensorId == meta.sensorId && e.sensorName == meta.sensorName
      && e.locationId == meta.locationId && e.state == meta.state
  {
    assert ["sensor_id"][1..] == [] && ["sensor_name"][1..] == [];
    assert ["location_id"][1..] == [] && ["state"][1..] == [];
  }

  /** The raw store and the normaliser fit together: when `json.loads` reads
      back each line `json.dumps` wrote, every row the normaliser keeps from a
      saved batch carries the metadata `SaveJSON` stamped on it. */
  lemma SavedMetadataReadBack(data: seq<Json>, meta: Metadata, parse: Line -> Option<Json>, dump: Json -> Line)
    requires forall i :: 0 <= i < |data| ==> parse(dump(Enrich(data[i], meta))) == Some(Enrich(data[i], meta))
    ensures var lines := Serialised(seq(|data|, i requires 0 <= i < |data| => Enrich(data[i], meta)), dump);
      forall r :: r in KeptRows(lines, parse) ==>
        r.sensorId == meta.sensorId && r.sensorName == meta.sensorName
        && r.locationId == meta.locationId && r.state == meta.state
  {
    var saved := seq(|data|, i requires 0 <= i < |data| => Enrich(data[i], meta));
    var lines := Serialised(saved, dump);
    forall r | r in KeptRows(lines, parse)
      ensures r.sensorId == meta.sensorId && r.sensorName == meta.sensorName
      ensures r.locationId == meta.locationId && r.state == meta.state
    {
      var i :| 0 <= i < |lines| && Classify(lines[i], parse) == Kept(r);
      assert lines[i] == dump(Enrich(data[i], meta));
      StampedRecordExtracts(data[i], meta);
    }
  }
}
