/** The cleaned table: `pd.DataFrame(records)`, the coercion of the value
    and time columns, and `dropna` on the required columns. */
module Frame {
  import opened Wrappers
  import opened JsonValues
  import opened Normalise

  /** A UTC timestamp (pandas stores nanoseconds since the epoch). */
  type Timestamp = int

  /** One table row after coercion: `None` is NaN or NaT. */
  datatype Row = Row(
    sensorId: Json,
    sensorName: Json,
    locationId: Json,
    state: Json,
    sensorTag: Json,
    avgValue: Option<real>,
    datetimeFrom: Option<Timestamp>,
    datetimeTo: Option<Timestamp>)

  /** `pd.to_datetime(v, utc=True, errors="coerce")` on one cell: None becomes
      NaT, anything else goes through the opaque parser `toTime`. */
  function CoerceTime(v: Json, toTime: Json -> Option<Timestamp>): Option<Timestamp>
  {
    if v == JNull then None else toTime(v)
  }

  /** `pd.to_numeric(v, errors="coerce")` on one cell: None becomes NaN. */
  function CoerceNumber(v: Json, toNumber: Json -> Option<real>): Option<real>
  {
    if v == JNull then None else toNumber(v)
  }

  function Coerce(e: Extracted, toNumber: Json -> Option<real>, toTime: Json -> Option<Timestamp>): Row
  {
    Row(e.sensorId, e.sensorName, e.locationId, e.state, e.sensorTag,
        CoerceNumber(e.avgValue, toNumber),
        CoerceTime(e.datetimeFrom, toTime),
        CoerceTime(e.datetimeTo, toTime))
  }

  /** The table built from `records`, with its three columns coerced. */
  function CoerceAll(records: seq<Extracted>, toNumber: Json -> Option<real>, toTime: Json -> Option<Timestamp>): (rows: seq<Row>)
    ensures |rows| == |records|
    ensures forall i :: 0 <= i < |records| ==> rows[i] == Coerce(records[i], toNumber, toTime)
  {
    seq(|records|, i requires 0 <= i < |records| => Coerce(records[i], toNumber, toTime))
  }

  /** A row that `dropna(subset=["avg_value", "datetime_from", "sensor_tag"])`
      keeps: `datetime_to` may be missing. */
  predicate Complete(r: Row)
  {
    r.avgValue.Some? && r.datetimeFrom.Some? && r.sensorTag != JNull
  }

  /** `a` is `b` with some elements removed, the rest in their order. */
  predicate IsSubsequence<T(==)>(a: seq<T>, b: seq<T>)
    decreases |b|
  {
    if a == [] then true
    else if b == [] then false
    else (a[0] == b[0] && IsSubsequence(a[1..], b[1..])) || IsSubsequence(a, b[1..])
  }

  lemma {:induction false} SubsequenceMembers<T>(a: seq<T>, b: seq<T>)
    requires IsSubsequence(a, b)
    ensures |a| <= |b|
    ensures forall x :: x in a ==> x in b
    decreases |b|
  {
    if a != [] && b != [] {
      if a[0] == b[0] && IsSubsequence(a[1..], b[1..]) {
        SubsequenceMembers(a[1..], b[1..]);
        assert a == [a[0]] + a[1..];
      } else {
        SubsequenceMembers(a, b[1..]);
      }
    }
  }

  /** Removing elements twice is removing them once. */
  lemma {:induction false} SubsequenceTrans<T>(a: seq<T>, b: seq<T>, c: seq<T>)
    requires IsSubsequence(a, b) && IsSubsequence(b, c)
    ensures IsSubsequence(a, c)
    decreases |c|
  {
    if a != [] {
      if b[0] == c[0] && IsSubsequence(b[1..], c[1..]) {
        if a[0] == b[0] && IsSubsequence(a[1..], b[1..]) {
          SubsequenceTrans(a[1..], b[1..], c[1..]);
        } else {
          SubsequenceTrans(a, b[1..], c[1..]);
        }
      } else {
        SubsequenceTrans(a, b, c[1..]);
      }
    }
  }

  /** `dropna`: the complete rows, in their order. */
  function DropNa(rows: seq<Row>): (kept: seq<Row>)
    ensures forall r :: r in kept ==> Complete(r)
    ensures forall r :: r in rows && Complete(r) ==> r in kept
    ensures forall r :: Complete(r) ==> multiset(kept)[r] == multiset(rows)[r]
    ensures IsSubsequence(kept, rows)
    ensures |kept| <= |rows|
  {
    if rows == [] then []
    else
      var rest := DropNa(rows[1..]);
      SubsequenceMembers(rest, rows[1..]);
      assert rows == [rows[0]] + rows[1..];
      if Complete(rows[0]) then [rows[0]] + rest else rest
  }

  /** An accepted record never has a missing tag, so `dropna` removes rows
      only for a NaN average or a NaT start time. */
  lemma AcceptedTagPresent(e: Extracted, toNumber: Json -> Option<real>, toTime: Json -> Option<Timestamp>)
    requires Accept(e)
    ensures Complete(Coerce(e, toNumber, toTime)) <==>
      toNumber(e.avgValue).Some? && CoerceTime(e.datetimeFrom, toTime).Some?
  {
  }
}
