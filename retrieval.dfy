/** The nested lookup helper `retrieval(d, *keys)`: walk a key path through
    nested dicts, reading a missing key as `{}` and anything reached from a
    non-dict as `None`. */
module Retrieval {
  import opened JsonValues

  /** One step of the walk: `d.get(k, {})` on a dict, `None` otherwise. */
  function RetrieveStep(d: Json, k: string): Json
  {
    if d.JObj? then (if k in d.fields then d.fields[k] else EmptyObject) else JNull
  }

  /** The loop over `keys` rebinds `d` once per key, left to right. */
  function Retrieve(d: Json, keys: seq<string>): Json
    decreases |keys|
  {
    if keys == [] then d else Retrieve(RetrieveStep(d, keys[0]), keys[1..])
  }

  /** No keys returns `d` itself, and a path may be walked in two legs. */
  lemma {:induction false} RetrieveConcat(d: Json, a: seq<string>, b: seq<string>)
    ensures Retrieve(d, []) == d
    ensures Retrieve(d, a + b) == Retrieve(Retrieve(d, a), b)
    decreases |a|
  {
    if a != [] {
      assert (a + b)[0] == a[0] && (a + b)[1..] == a[1..] + b;
      RetrieveConcat(RetrieveStep(d, a[0]), a[1..], b);
    } else {
      assert a + b == b;
    }
  }

  /** Reaching a non-dict (None included) makes the rest of the walk None. */
  lemma {:induction false} RetrieveNonDict(d: Json, keys: seq<string>)
    requires !d.JObj? && keys != []
    ensures Retrieve(d, keys) == JNull
    decreases |keys|
  {
    if |keys| > 1 {
      RetrieveNonDict(JNull, keys[1..]);
    }
  }

  /** `{}` stays `{}` whatever keys follow. */
  lemma {:induction false} RetrieveEmptyStays(keys: seq<string>)
    ensures Retrieve(EmptyObject, keys) == EmptyObject
    decreases |keys|
  {
    if keys != [] {
      RetrieveEmptyStays(keys[1..]);
    }
  }

  /** A key missing from a dict yields `{}`, and further keys keep it `{}`. */
  lemma {:induction false} RetrieveMissing(d: Json, keys: seq<string>)
    requires d.JObj? && keys != [] && keys[0] !in d.fields
    ensures Retrieve(d, keys) == EmptyObject
  {
    RetrieveEmptyStays(keys[1..]);
  }

  /** A key present in a dict descends into its value, even when that value
      is None. */
  lemma {:induction false} RetrievePresent(d: Json, k: string, rest: seq<string>)
    requires d.JObj? && k in d.fields
    ensures Retrieve(d, [k] + rest) == Retrieve(d.fields[k], rest)
  {
  }
}
