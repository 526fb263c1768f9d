# Air-quality clean-and-merge pipeline, modelled in Dafny

This project models the live part of `Main.py` of an OpenAQ air-quality pipeline:

- **Raw store writer** (`SaveJSON`). It stamps each dict record with the sensor metadata, in place. Then it writes one JSON line per record to the day's raw file, appending or overwriting.
- **Nested lookup helper** (`retrieval`). It walks a key path through nested dicts.
- **Record normaliser**. It reads the raw file line by line. It skips lines that are not valid JSON, extracts eight fields with chained `.get`, and keeps a record when `sensor_id` and the parameter tag are truthy and `avg_value` is not None. It aborts when nothing is kept.
- **Coercion and `dropna`**. These turn the kept records into table rows with a numeric average and a start timestamp.
- **Dedup/merge engine**. `drop_duplicates` on (`sensor_id`, `datetime_from`) keeps the first occurrence. The store merge is `concat([existing, df])` followed by the same dedup.

Files and modules:

| file | module | what it holds |
|---|---|---|
| `json_values.dfy` | `Wrappers`, `JsonValues` | `Option`; JSON values, Python truthiness, `dict.get` |
| `raw_store.dfy` | `RawStore` | `Enrich`, the `TextFile` class, the `SaveJson` method |
| `retrieval.dfy` | `Retrieval` | `Retrieve` and its algebraic laws |
| `normalise.dfy` | `Normalise` | field extraction, the line loop `CollectRecords` and its specification `ScanLines` |
| `frame.dfy` | `Frame` | coerced rows, `dropna`, the subsequence relation |
| `dedup.dfy` | `Dedup` | keep-first dedup, merge, and their properties |
| `pipeline.dfy` | `Pipeline` | the `CsvFile` class and the `CleanAndMerge` method, from reading the raw file to writing the store |

Opaque library behaviour enters as function-typed parameters:

- `json.loads` is `parse: Line -> Option<Json>`, where `None` is a `JSONDecodeError`.
- `json.dumps` is `dump: Json -> Line`.
- `pd.to_numeric` is `toNumber`; `pd.to_datetime` is `toTime`. In both, `None` is NaN or NaT.

A Python `None` fed to either coercion gives `None` directly.

An `AttributeError` from `.get` on a non-dict is not caught by the source. It ends the run and is modelled as an explicit outcome (`Extract` returns `None`, the scan becomes `Crashed`, the run `Died`). Nothing is written in that case.

**Which row wins a merge.** The code does `concat([existing, df])` and then `drop_duplicates` with the default `keep="first"`. So on a duplicate key **the row already in the store wins** over a freshly fetched one: see `Dedup.ExistingWins` and `Dedup.OverlapKeepsStoredValue`.

## Model

| member | source | states |
|---|---|---|
| `RawStore.Enrich` | Main.py:34-38 | a dict record ends up with exactly its old keys plus the four metadata keys; the four keys hold the arguments, overwriting old values; every other key keeps its value; a non-dict record is returned unchanged |
| `RawStore.EnrichIdempotent` | Main.py:34-38 | stamping a record twice with the same metadata equals stamping it once |
| `RawStore.Serialised` | Main.py:39 | exactly one serialised line per record, line i being the dump of record i |
| `RawStore.SaveJson` | Main.py:28-40 | every element of `data` is replaced by its stamped form, in place; the file becomes the old lines (append mode) or nothing (write mode), followed by one dumped line per stamped record, in order |
| `RawStore.SaveJsonGrowth` | Main.py:30-31 | in append mode the old content is a prefix and the file grows by one line per record; in write mode it has exactly one line per record |
| `Retrieval.Retrieve` | Main.py:43-46 | the helper itself: one `d.get(k, {})` per key, left to right, None once a non-dict is reached; its contract is the laws in the rows below |
| `Retrieval.RetrieveConcat` | Main.py:43-46 | with no keys the value is returned unchanged; walking `a + b` equals walking `a` and then `b` from where it ended |
| `Retrieval.RetrieveNonDict` | Main.py:45 | from a non-dict (None included), any non-empty key path gives None |
| `Retrieval.RetrieveEmptyStays` | Main.py:45 | `{}` stays `{}` under any key path |
| `Retrieval.RetrieveMissing` | Main.py:45 | a key missing from a dict gives `{}`, whatever keys follow |
| `Retrieval.RetrievePresent` | Main.py:45 | a key present in a dict continues the walk from its value, even when that value is None |
| `JsonValues.Truthy` | Main.py:238 | Python's `bool(v)`: None, False, zero, the empty string and empty containers are false; stated through `Normalise.AcceptEdgeCases` |
| `JsonValues.Get` | Main.py:229-236 | `v.get(key, default)`: the stored value, the default when the key is missing, and the AttributeError outcome on a non-dict; stated through `Normalise.Extract` |
| `Normalise.Extract` | Main.py:229-236 | extraction succeeds exactly when the record is a dict and each of `parameter`, `summary`, `period`, `period.datetimeFrom`, `period.datetimeTo` is absent or a dict; otherwise it is the uncaught AttributeError; each of the eight fields is the value at its key path, or None when a key on the path is missing |
| `Normalise.Accept` | Main.py:238 | the acceptance test `sensor_id and sensor_tag and avg_value is not None`; stated through `Normalise.AcceptEdgeCases` and `Normalise.KeptRows` |
| `Normalise.ExampleRecordExtracts` | Main.py:229-236 | a record with no name, location, state or end time extracts with None in those four fields and the stored values in the rest |
| `Normalise.AcceptEdgeCases` | Main.py:238 | a sensor id of 0 or an empty tag is rejected; an average of 0 with a truthy id and tag is accepted |
| `Normalise.ExtractMatchesRetrieve` | Main.py:233-236 | on each nested path the chained `.get` and `retrieval` read the same value, except that a missing key is None for one and `{}` for the other |
| `Normalise.Classify` | Main.py:225-249 | a line is malformed exactly when parsing fails; it fails the run exactly when it parses but is not extractable; it is kept exactly when it parses, extracts and passes the acceptance test, and then its row is the extracted record |
| `Normalise.ScanLines` | Main.py:224-250 | the loop as a function of the lines read so far: a malformed line adds a warning, a failing line ends the run, a kept line appends its row; characterised by `Normalise.ScanCrashedIff` and `Normalise.ScanCompleted` |
| `Normalise.CrashPersists` | Main.py:223-250 | once an AttributeError has ended the loop, no later line changes the outcome |
| `Normalise.CollectRecords` | Main.py:222-250 | the imperative line loop returns exactly `ScanLines` of the file |
| `Normalise.KeptRows` | Main.py:238-248 | the kept rows number at most the lines; every row passes the acceptance test; every row comes from a kept line; every kept line's row is present |
| `Normalise.MalformedCount` | Main.py:249-250 | the number of warnings is at most the number of lines |
| `Normalise.KeptRowsAppend` | Main.py:224-248 | rows and warnings of a file are those of its first part followed by those of the rest, so accepted rows keep line order |
| `Normalise.ScanCrashedIff` | Main.py:225-250 | the run dies exactly when some line parses but is not extractable; malformed lines alone never stop it |
| `Normalise.ScanCompleted` | Main.py:224-250 | when the loop completes, the records are exactly the kept rows in line order and the warnings are exactly the malformed lines |
| `Normalise.OneValidOneMalformed` | Main.py:222-250 | a file with one valid record and one line of invalid JSON yields exactly that record's row and one warning |
| `Frame.CoerceAll` | Main.py:256-259 | the table has one row per record, each the record with its average and both times coerced |
| `Frame.DropNa` | Main.py:263 | the kept rows are all complete (numeric average, start time, tag); every complete row is kept as many times as it occurs, so repeated records from an appended raw file all survive; the result is an order-preserving subsequence, so no longer than its input |
| `Frame.AcceptedTagPresent` | Main.py:257-263 | for an accepted record the tag is never missing, so `dropna` removes it only for a NaN average or a NaT start time |
| `Dedup.DedupFrom` | Main.py:264 | the keep-first scan with a set of taken keys; its contract is `Dedup.DedupSpec`, `Dedup.DedupKeepsFirst` and `Dedup.DedupOrder`, which together fix the result: one row per untaken key, that key's first row, in the order of first occurrence |
| `Dedup.DedupSpec` | Main.py:264 | the dedup has no two rows with equal (`sensor_id`, `datetime_from`); its keys are exactly the input's keys not already taken; it is an order-preserving subsequence of the input |
| `Dedup.DropDuplicates` | Main.py:264 | every input key appears exactly once in the result, which is an order-preserving subsequence no longer than the input, listing the keys in the order of their first occurrence |
| `Dedup.DedupKeepsFirst` | Main.py:264 | every row kept is the first row of the input with its key |
| `Dedup.DedupOrder` | Main.py:264 | the kept rows list their keys in the order in which those keys first occur in the input |
| `Dedup.DedupOfUnique` | Main.py:264 | rows with unique keys, none of them taken, are left unchanged |
| `Dedup.DropDuplicatesIdempotent` | Main.py:264 | deduplicating twice equals deduplicating once |
| `Dedup.RepeatedFetchKeepsOrder` | Main.py:264 | a raw file holding the same two records twice, as an appended second fetch leaves it, dedups to one copy of each in the order of the first fetch |
| `Dedup.DedupAppend` | Main.py:279-280 | deduplicating `a + b` is deduplicating `a`, then `b` with `a`'s keys taken |
| `Dedup.Merge` | Main.py:278-280 | the merged store has unique keys; its keys are the union of the store's and the batch's; it is an order-preserving subsequence of store followed by batch, listing the keys in the order of their first occurrence there |
| `Dedup.ExistingWins` | Main.py:279-280 | a merged row whose key the store holds is a row of the store; a key-unique store is kept whole as a prefix, followed by the batch rows with new keys |
| `Dedup.MergeAgainAddsNothing` | Main.py:279-280 | merging the same batch into the merged store again changes nothing |
| `Dedup.MergeWithNothingOrItself` | Main.py:279-280 | merging with an empty batch, or with the store itself, only removes the store's own duplicates |
| `Dedup.OverlapKeepsStoredValue` | Main.py:279-280 | when two runs fetch the same key with different rows, the merged store holds only the stored row |
| `Pipeline.DropNaKeepsFirst` | Main.py:263-264 | the first complete row of a key is, after `dropna`, the first row with that key, which is the one `drop_duplicates` keeps |
| `Pipeline.CleanBatch` | Main.py:256-265 | the cleaned batch is no longer than the accepted records, so `before - after` is non-negative; it has unique keys; every row is complete and is the coercion of some record; the key of every complete coerced record survives, and the row that survives for it is the first complete one; the batch keeps the table's row order; its keys follow the order of their first complete row |
| `Pipeline.StoreAfter` | Main.py:276-283 | an absent or empty store is replaced by exactly the batch; otherwise the new store has unique keys, covers the union of keys, is an order-preserving subsequence of store followed by batch in first-occurrence order, and the stored row wins on a shared key; a key-unique store is kept whole, followed by the batch rows with new keys |
| `Pipeline.CleanAndMerge` | Main.py:252-284 | a run that dies or keeps no record writes nothing and reports the warnings; otherwise the daily file gets the cleaned batch, the store gets `StoreAfter` of its old content, and the logged counts are `before - after` and `after` |
| `Pipeline.RerunChangesNothing` | Main.py:276-283 | cleaning the same batch into the store a second time leaves the store as the first time left it |
| `Pipeline.StampedRecordExtracts` | Main.py:34-38 | a stamped record that extracts has the four stamped metadata values as its sensor id, name, location and state |
| `Pipeline.SavedMetadataReadBack` | Main.py:28-40 | when `json.loads` reads back each line `json.dumps` wrote, every row the normaliser keeps from a saved batch carries the metadata the writer stamped on it |

## Left out

- The fetch, pagination and retry/backoff loops (Main.py:99-209) are commented out in the source. They are not live code.
- Logging setup, `.env` and API-key loading, argument parsing and directory creation (Main.py:18-25, 49-94) are process plumbing. The log lines themselves are not modelled; the counts they report are returned in `RunOutcome`.
- The wall-clock date and the check that the day's raw file exists (Main.py:214-220) are left out. The raw file's lines are a parameter of `CleanAndMerge`, so the "raw file not found" exit is not modelled.
- `json.loads`, `json.dumps`, `pd.to_numeric` and `pd.to_datetime` are opaque parameters. `pd.to_datetime` infers one format for the whole column; the model coerces cell by cell.
- CSV serialisation is not modelled. A store row read back by `read_csv` is assumed to compare equal, on its key, to the row that was written. In pandas the stored `datetime_from` comes back as a string while the new batch holds Timestamps, so in fact the two may never compare equal. The model abstracts from that dtype round trip.
- Dict key order is not modelled: a JSON object is a `map`. Serialised output may differ in key order.
- JSON integers and floats are one `real`. The `NaN` and `Infinity` literals that `json.loads` accepts are not representable. A NaN tag, which is truthy in Python and later dropped by `dropna`, is therefore not modelled.
- `SaveJson` mutates the elements of one array. If the same dict object is also reachable elsewhere, that aliasing is not modelled.
- Exceptions other than `JSONDecodeError` and `AttributeError` are not modelled. These include I/O errors and decoding errors while reading the file.
- `viz/viz.py` is a charting script. It uses the clock, float aggregation and HTML output, and is not part of this model.
