/** The raw store writer `SaveJSON`: stamp each dict record with the sensor
    metadata (in place) and write one serialised record per line to a
    JSON-lines file opened for append or for overwrite. */
module RawStore {
  import opened JsonValues

  /** The four keys every dict record is stamped with. */
  const MetadataKeys: set<string> := {"sensor_id", "sensor_name", "location_id", "state"}

  /** The metadata `SaveJSON` receives as keyword arguments (None by default). */
  datatype Metadata = Metadata(sensorId: Json, sensorName: Json, locationId: Json, state: Json)

  /** A dict record gains the four metadata keys, overwriting earlier values
      and keeping every other key; any other record is left as it is. */
  function Enrich(rec: Json, meta: Metadata): (r: Json)
    ensures r.JObj? <==> rec.JObj?
    ensures !rec.JObj? ==> r == rec
    ensures rec.JObj? ==> r.fields.Keys == rec.fields.Keys + MetadataKeys
    ensures rec.JObj? ==>
      && r.fields["sensor_id"] == meta.sensorId
      && r.fields["sensor_name"] == meta.sensorName
      && r.fields["location_id"] == meta.locationId
      && r.fields["state"] == meta.state
    ensures rec.JObj? ==> forall k :: k in rec.fields && k !in MetadataKeys ==> r.fields[k] == rec.fields[k]
  {
    if rec.JObj? then
      JObj(rec.fields["sensor_id" := meta.sensorId]["sensor_name" := meta.sensorName]
                     ["location_id" := meta.locationId]["state" := meta.state])
    else rec
  }

  /** Stamping twice is stamping once. */
  lemma EnrichIdempotent(rec: Json, meta: Metadata)
    ensures Enrich(Enrich(rec, meta), meta) == Enrich(rec, meta)
  {
  }

  /** The serialised lines of a batch, one per record, in order. */
  function Serialised(recs: seq<Json>, dump: Json -> Line): (lines: seq<Line>)
    ensures |lines| == |recs|
    ensures forall i :: 0 <= i < |recs| ==> lines[i] == dump(recs[i])
  {
    if recs == [] then [] else Serialised(recs[..|recs| - 1], dump) + [dump(recs[|recs| - 1])]
  }

  /** A JSON-lines file: its content as a sequence of lines (an absent file
      reads as empty). */
  class TextFile {
    var lines: seq<Line>

    constructor (initial: seq<Line>)
      ensures lines == initial
    {
      lines := initial;
    }
  }

  /** `SaveJSON(file_path, data, ..., append)`. The records of `data` are
      stamped in place; the file keeps its prior lines in append mode and is
      truncated first in write mode; `dump` stands for `json.dumps`. */
  method SaveJson(file: TextFile, data: array<Json>, meta: Metadata, append: bool, dump: Json -> Line)
    modifies file, data
    ensures forall i :: 0 <= i < data.Length ==> data[i] == Enrich(old(data[i]), meta)
    ensures file.lines == (if append then old(file.lines) else []) + Serialised(data[..], dump)
  {
    if !append {
      file.lines := [];
    }
    ghost var base := file.lines;
    var i := 0;
    while i < data.Length
      invariant 0 <= i <= data.Length
      invariant forall k :: 0 <= k < i ==> data[k] == Enrich(old(data[k]), meta)
      invariant forall k :: i <= k < data.Length ==> data[k] == old(data[k])
      invariant file.lines == base + Serialised(data[..i], dump)
    {
      if data[i].JObj? {
        data[i] := Enrich(data[i], meta);
      }
      assert data[..i + 1][..i] == data[..i];
      file.lines := file.lines + [dump(data[i])];
      i := i + 1;
    }
    assert data[..i] == data[..];
  }

  /** In append mode the prior content is kept as a prefix and the file grows
      by exactly one line per record; in write mode only the new lines remain. */
  lemma {:induction false} SaveJsonGrowth(prior: seq<Line>, recs: seq<Json>, append: bool, dump: Json -> Line)
    ensures var after := (if append then prior else []) + Serialised(recs, dump);
      && (append ==> |after| == |prior| + |recs| && after[..|prior|] == prior)
      && (!append ==> |after| == |recs|)
      && forall i :: 0 <= i < |recs| ==> after[|after| - |recs| + i] == dump(recs[i])
  {
  }
}
