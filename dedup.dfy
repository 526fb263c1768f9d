/** The dedup and merge engine: `drop_duplicates(subset=["sensor_id",
    "datetime_from"])` with pandas' default `keep="first"`, and the merge of
    the existing store with the day's rows as `concat([existing, df])`
    followed by the same dedup. The first occurrence of a key wins, so on a
    merge the row already in the store is kept over a freshly fetched one. */
module Dedup {
  import opened Wrappers
  import opened JsonValues
  import opened Frame

  /** The dedup key (`sensor_id`, `datetime_from`). */
  type Key = (Json, Option<Timestamp>)

  function KeyOf(r: Row): Key
  {
    (r.sensorId, r.datetimeFrom)
  }

  function KeysOf(rows: seq<Row>): set<Key>
  {
    set r | r in rows :: KeyOf(r)
  }

  /** No two rows share a key. */
  predicate UniqueKeys(rows: seq<Row>)
  {
    forall i, j :: 0 <= i < j < |rows| ==> KeyOf(rows[i]) != KeyOf(rows[j])
  }

  lemma KeysOfCons(r: Row, rows: seq<Row>)
    ensures KeysOf([r] + rows) == {KeyOf(r)} + KeysOf(rows)
  {
  }

  lemma KeysOfAppend(a: seq<Row>, b: seq<Row>)
    ensures KeysOf(a + b) == KeysOf(a) + KeysOf(b)
  {
  }

  /** Putting a row with a new key in front keeps the keys unique. */
  lemma UniqueKeysCons(r: Row, rows: seq<Row>)
    requires UniqueKeys(rows) && KeyOf(r) !in KeysOf(rows)
    ensures UniqueKeys([r] + rows)
  {
  }

  /** A subsequence of the tail is a subsequence of the whole, with or
      without the head. */
  lemma SubsequenceCons(r: Row, a: seq<Row>, rows: seq<Row>)
    requires IsSubsequence(a, rows)
    ensures IsSubsequence(a, [r] + rows)
    ensures IsSubsequence([r] + a, [r] + rows)
  {
  }

  /** Keep-first dedup of `rows`, treating the keys in `seen` as already
      taken: the scan `drop_duplicates` performs. */
  function DedupFrom(rows: seq<Row>, seen: set<Key>): seq<Row>
    decreases |rows|
  {
    if rows == [] then []
    else if KeyOf(rows[0]) in seen then DedupFrom(rows[1..], seen)
    else [rows[0]] + DedupFrom(rows[1..], seen + {KeyOf(rows[0])})
  }

  /** The dedup keeps each key not already taken exactly once, and keeps
      rows in their order. */
  lemma {:induction false} DedupSpec(rows: seq<Row>, seen: set<Key>)
    ensures UniqueKeys(DedupFrom(rows, seen))
    ensures KeysOf(DedupFrom(rows, seen)) == KeysOf(rows) - seen
    ensures IsSubsequence(DedupFrom(rows, seen), rows)
    decreases |rows|
  {
    if rows != [] {
      var head, tail := rows[0], rows[1..];
      var k := KeyOf(head);
      assert rows == [head] + tail;
      KeysOfCons(head, tail);
      if k in seen {
        DedupSpec(tail, seen);
        SubsequenceCons(head, DedupFrom(tail, seen), tail);
      } else {
        var rest := DedupFrom(tail, seen + {k});
        DedupSpec(tail, seen + {k});
        SubsequenceCons(head, rest, tail);
        KeysOfCons(head, rest);
        UniqueKeysCons(head, rest);
      }
    }
  }

  /** `df.drop_duplicates(subset=["sensor_id", "datetime_from"])`. */
  function DropDuplicates(rows: seq<Row>): (r: seq<Row>)
    ensures UniqueKeys(r)
    ensures KeysOf(r) == KeysOf(rows)
    ensures IsSubsequence(r, rows)
    ensures InFirstOrder(r, rows)
    ensures |r| <= |rows|
  {
    DedupSpec(rows, {});
    DedupOrder(rows, {});
    SubsequenceMembers(DedupFrom(rows, {}), rows);
    DedupFrom(rows, {})
  }

  /** The position of the first row with key `k`. */
  function FirstIndex(rows: seq<Row>, k: Key): (i: nat)
    requires k in KeysOf(rows)
    ensures i < |rows| && KeyOf(rows[i]) == k
    ensures forall j :: 0 <= j < i ==> KeyOf(rows[j]) != k
    decreases |rows|
  {
    KeysOfCons(rows[0], rows[1..]);
    assert rows == [rows[0]] + rows[1..];
    if KeyOf(rows[0]) == k then 0 else 1 + FirstIndex(rows[1..], k)
  }

  /** Every row the dedup keeps is the first row of the input with its key. */
  lemma {:induction false} DedupKeepsFirst(rows: seq<Row>, seen: set<Key>)
    ensures forall x :: x in DedupFrom(rows, seen) ==> KeyOf(x) in KeysOf(rows) && x == rows[FirstIndex(rows, KeyOf(x))]
    decreases |rows|
  {
    DedupSpec(rows, seen);
    SubsequenceMembers(DedupFrom(rows, seen), rows);
    if rows != [] {
      DedupKeepsFirst(rows[1..], seen + {KeyOf(rows[0])});
      DedupKeepsFirst(rows[1..], seen);
      DedupSpec(rows[1..], seen + {KeyOf(rows[0])});
      KeysOfCons(rows[0], rows[1..]);
      assert rows == [rows[0]] + rows[1..];
      forall x | x in DedupFrom(rows, seen) ensures x == rows[FirstIndex(rows, KeyOf(x))] {
        var r := DedupFrom(rows, seen);
        assert KeyOf(x) in KeysOf(r);
        if KeyOf(x) != KeyOf(rows[0]) {
          assert KeyOf(x) in KeysOf(rows[1..]);
          assert FirstIndex(rows, KeyOf(x)) == 1 + FirstIndex(rows[1..], KeyOf(x));
        }
      }
    }
  }

  /** The rows of `r` take their keys from `rows`, in the order in which
      those keys first occur in `rows`. */
  predicate InFirstOrder(r: seq<Row>, rows: seq<Row>)
  {
    && (forall i :: 0 <= i < |r| ==> KeyOf(r[i]) in KeysOf(rows))
    && (forall i, j :: 0 <= i < j < |r| ==> FirstIndex(rows, KeyOf(r[i])) < FirstIndex(rows, KeyOf(r[j])))
  }

  /** A key other than the head's is found one place later than in the tail. */
  lemma FirstIndexTail(rows: seq<Row>, k: Key)
    requires rows != [] && k != KeyOf(rows[0]) && k in KeysOf(rows[1..])
    ensures k in KeysOf(rows) && FirstIndex(rows, k) == 1 + FirstIndex(rows[1..], k)
  {
    KeysOfCons(rows[0], rows[1..]);
    assert rows == [rows[0]] + rows[1..];
  }

  /** Order by first occurrence in the tail is order by first occurrence in
      the whole, after the head, when the head's key does not come up. */
  lemma OrderInTail(rows: seq<Row>, r: seq<Row>)
    requires rows != [] && InFirstOrder(r, rows[1..])
    requires forall x :: x in r ==> KeyOf(x) != KeyOf(rows[0])
    ensures InFirstOrder(r, rows)
    ensures forall i :: 0 <= i < |r| ==> 0 < FirstIndex(rows, KeyOf(r[i]))
  {
    forall i | 0 <= i < |r|
      ensures KeyOf(r[i]) in KeysOf(rows) && FirstIndex(rows, KeyOf(r[i])) == 1 + FirstIndex(rows[1..], KeyOf(r[i]))
    {
      assert r[i] in r;
      FirstIndexTail(rows, KeyOf(r[i]));
    }
  }

  /** The head's key is found at once. */
  lemma FirstIndexHead(rows: seq<Row>)
    requires rows != []
    ensures KeyOf(rows[0]) in KeysOf(rows) && FirstIndex(rows, KeyOf(rows[0])) == 0
  {
    KeysOfCons(rows[0], rows[1..]);
    assert rows == [rows[0]] + rows[1..];
  }

  /** The head's key comes first of all. */
  lemma OrderWithHead(rows: seq<Row>, r: seq<Row>)
    requires rows != [] && InFirstOrder(r, rows)
    requires forall i :: 0 <= i < |r| ==> 0 < FirstIndex(rows, KeyOf(r[i]))
    ensures InFirstOrder([rows[0]] + r, rows)
  {
    var r' := [rows[0]] + r;
    FirstIndexHead(rows);
    assert forall i :: 0 < i < |r'| ==> r'[i] == r[i - 1];
  }

  /** The dedup lists the kept keys in the order of their first occurrence. */
  lemma {:induction false} DedupOrder(rows: seq<Row>, seen: set<Key>)
    ensures InFirstOrder(DedupFrom(rows, seen), rows)
    decreases |rows|
  {
    if rows != [] {
      var head, tail := rows[0], rows[1..];
      var kh := KeyOf(head);
      var seen' := if kh in seen then seen else seen + {kh};
      var rest := DedupFrom(tail, seen');
      DedupOrder(tail, seen');
      DedupSpec(tail, seen');
      forall x | x in rest ensures KeyOf(x) != kh {
        assert KeyOf(x) in KeysOf(rest);
      }
      OrderInTail(rows, rest);
      if kh !in seen {
        OrderWithHead(rows, rest);
      }
    }
  }

  /** A key-unique sequence none of whose keys is taken is left as it is. */
  lemma {:induction false} DedupOfUnique(rows: seq<Row>, seen: set<Key>)
    requires UniqueKeys(rows) && KeysOf(rows) !! seen
    ensures DedupFrom(rows, seen) == rows
    decreases |rows|
  {
    if rows != [] {
      var k := KeyOf(rows[0]);
      KeysOfCons(rows[0], rows[1..]);
      assert rows == [rows[0]] + rows[1..];
      forall x | x in rows[1..] ensures KeyOf(x) != k {
        var j :| 0 <= j < |rows[1..]| && rows[1..][j] == x;
        assert rows[1..][j] == rows[j + 1];
      }
      DedupOfUnique(rows[1..], seen + {k});
    }
  }

  /** Dedup is idempotent. */
  lemma DropDuplicatesIdempotent(rows: seq<Row>)
    ensures DropDuplicates(DropDuplicates(rows)) == DropDuplicates(rows)
  {
    DedupOfUnique(DropDuplicates(rows), {});
  }

  /** Deduplicating a concatenation is deduplicating the first part, then the
      second with the first part's keys taken. */
  lemma {:induction false} DedupAppend(a: seq<Row>, b: seq<Row>, seen: set<Key>)
    ensures DedupFrom(a + b, seen) == DedupFrom(a, seen) + DedupFrom(b, seen + KeysOf(a))
    decreases |a|, 1
  {
    if a == [] {
      assert a + b == b;
      assert KeysOf(a) == {};
      assert seen + KeysOf(a) == seen;
    } else {
      assert a == [a[0]] + a[1..];
      DedupAppendCons(a[0], a[1..], b, seen);
    }
  }

  /** The step of `DedupAppend` for a first part with a head. */
  lemma {:induction false} DedupAppendCons(head: Row, tail: seq<Row>, b: seq<Row>, seen: set<Key>)
    ensures DedupFrom([head] + tail + b, seen) == DedupFrom([head] + tail, seen) + DedupFrom(b, seen + KeysOf([head] + tail))
    decreases |tail| + 1, 0
  {
    var k := KeyOf(head);
    assert [head] + tail + b == [head] + (tail + b);
    KeysOfCons(head, tail);
    DedupCons(head, tail + b, seen);
    DedupCons(head, tail, seen);
    if k in seen {
      DedupAppend(tail, b, seen);
      assert seen + KeysOf(tail) == seen + KeysOf([head] + tail);
    } else {
      var seen' := seen + {k};
      assert seen' + KeysOf(tail) == seen + KeysOf([head] + tail);
      DedupAppend(tail, b, seen');
      var left, right := DedupFrom(tail, seen'), DedupFrom(b, seen' + KeysOf(tail));
      assert [head] + (left + right) == ([head] + left) + right;
    }
  }

  /** One step of the scan. */
  lemma DedupCons(head: Row, tail: seq<Row>, seen: set<Key>)
    ensures DedupFrom([head] + tail, seen) ==
      if KeyOf(head) in seen then DedupFrom(tail, seen) else [head] + DedupFrom(tail, seen + {KeyOf(head)})
  {
  }

  /** Nothing is kept from rows whose keys are all taken. */
  lemma {:induction false} DedupAllSeen(rows: seq<Row>, seen: set<Key>)
    requires KeysOf(rows) <= seen
    ensures DedupFrom(rows, seen) == []
    decreases |rows|
  {
    if rows != [] {
      KeysOfCons(rows[0], rows[1..]);
      assert rows == [rows[0]] + rows[1..];
      DedupAllSeen(rows[1..], seen);
    }
  }

  /** A raw file appended to twice repeats its records; the dedup keeps one
      copy of each, in the order of the first fetch. */
  lemma RepeatedFetchKeepsOrder(a: Row, b: Row)
    requires KeyOf(a) != KeyOf(b)
    ensures DropDuplicates([a, b, a, b]) == [a, b]
  {
    var ka, kb := KeyOf(a), KeyOf(b);
    var both := {ka} + {kb};
    DedupCons(b, [], both);
    assert [b] + [] == [b];
    DedupCons(a, [b], both);
    assert [a] + [b] == [a, b];
    DedupCons(b, [a, b], {ka});
    assert [b] + [a, b] == [b, a, b];
    DedupCons(a, [b, a, b], {});
    assert [a] + [b, a, b] == [a, b, a, b];
    assert {} + {ka} == {ka};
  }

  /** The merge of the existing store with the day's rows. */
  function Merge(existing: seq<Row>, batch: seq<Row>): (r: seq<Row>)
    ensures UniqueKeys(r)
    ensures KeysOf(r) == KeysOf(existing) + KeysOf(batch)
    ensures IsSubsequence(r, existing + batch)
    ensures InFirstOrder(r, existing + batch)
    ensures |r| <= |existing| + |batch|
  {
    KeysOfAppend(existing, batch);
    DropDuplicates(existing + batch)
  }

  /** On a key shared by the store and the new rows, the store's row wins:
      every merged row whose key the store holds is a row of the store. A
      key-unique store is kept whole, as a prefix, and only rows with new keys
      are added after it. */
  lemma ExistingWins(existing: seq<Row>, batch: seq<Row>)
    ensures forall x :: x in Merge(existing, batch) && KeyOf(x) in KeysOf(existing) ==> x in existing
    ensures UniqueKeys(existing) ==>
      Merge(existing, batch) == existing + DedupFrom(batch, KeysOf(existing))
  {
    DedupAppend(existing, batch, {});
    assert {} + KeysOf(existing) == KeysOf(existing);
    var tail := DedupFrom(batch, KeysOf(existing));
    DedupSpec(batch, KeysOf(existing));
    DedupSpec(existing, {});
    SubsequenceMembers(DedupFrom(existing, {}), existing);
    forall x | x in tail ensures KeyOf(x) !in KeysOf(existing) {
      assert KeyOf(x) in KeysOf(tail);
    }
    if UniqueKeys(existing) {
      DedupOfUnique(existing, {});
    }
  }

  /** Merging the same new rows a second time adds nothing. */
  lemma MergeAgainAddsNothing(existing: seq<Row>, batch: seq<Row>)
    ensures Merge(Merge(existing, batch), batch) == Merge(existing, batch)
  {
    var m := Merge(existing, batch);
    ExistingWins(m, batch);
    DedupAllSeen(batch, KeysOf(m));
    assert m + [] == m;
  }

  /** Merging a store with no new rows, or with itself, only removes the
      store's own duplicates. */
  lemma MergeWithNothingOrItself(existing: seq<Row>)
    ensures Merge(existing, []) == DropDuplicates(existing)
    ensures Merge(existing, existing) == DropDuplicates(existing)
  {
    assert existing + [] == existing;
    DedupAppend(existing, existing, {});
    assert {} + KeysOf(existing) == KeysOf(existing);
    DedupAllSeen(existing, KeysOf(existing));
    assert DedupFrom(existing, {}) + [] == DedupFrom(existing, {});
  }

  /** The example of two runs fetching the same key with different averages:
      the merged store keeps the value already stored. */
  lemma OverlapKeepsStoredValue(stored: Row, refetched: Row)
    requires KeyOf(stored) == KeyOf(refetched) && stored != refetched
    ensures Merge([stored], [refetched]) == [stored]
  {
    ExistingWins([stored], [refetched]);
    assert KeysOf([refetched]) == {KeyOf(refetched)} by { KeysOfCons(refetched, []); assert [refetched] + [] == [refetched]; }
    assert KeysOf([stored]) == {KeyOf(stored)} by { KeysOfCons(stored, []); assert [stored] + [] == [stored]; }
    DedupAllSeen([refetched], KeysOf([stored]));
    assert [stored] + [] == [stored];
  }
}
