/**
 The records an ontology is written in. The source keeps each type and each
 symbol as a dictionary from key to value; here a record is the ordered list of
 its key/value entries, so that a key written twice (which the sanity check must
 reject) can be represented at all.
 */
module Records {

  datatype Option<T> = None | Some(value: T)

  /** A field value: a plain string, or a list of strings (`arg_types`). */
  datatype Value = Str(s: string) | Strs(items: seq<string>)

  /** One type or symbol definition, as its entries in iteration order. */
  type Record = seq<(string, Value)>

  /** The keys that occur in a record. */
  function KeySet(r: Record): set<string>
  {
    set j | 0 <= j < |r| :: r[j].0
  }

  /** No key occurs twice, which a dictionary guarantees by construction. */
  predicate DistinctKeys(r: Record)
  {
    forall a, b :: 0 <= a < b < |r| ==> r[a].0 != r[b].0
  }

  /**
   Dictionary indexing `record[key]`: the value of the first entry with that
   key. An absent key gives None where Python raises KeyError; the sanity
   check indexes only keys it has already found in the record.
   */
  function Lookup(r: Record, key: string): (v: Option<Value>)
    ensures v.Some? <==> key in KeySet(r)
    ensures v.Some? ==> (key, v.value) in r
  {
    if r == [] then None
    else if r[0].0 == key then Some(r[0].1)
    else
      assert KeySet(r) == {r[0].0} + KeySet(r[1..]) by {
        KeySetCons(r);
      }
      Lookup(r[1..], key)
  }

  /** The string stored under `key`; "" when absent or not a string. */
  function StrAt(r: Record, key: string): string
  {
    match Lookup(r, key)
    case Some(Str(s)) => s
    case _ => ""
  }

  /** The list of strings stored under `key`; [] when absent or not a list. */
  function StrsAt(r: Record, key: string): seq<string>
  {
    match Lookup(r, key)
    case Some(Strs(items)) => items
    case _ => []
  }

  lemma KeySetCons(r: Record)
    requires r != []
    ensures KeySet(r) == {r[0].0} + KeySet(r[1..])
  {
    forall k | k in KeySet(r) ensures k in {r[0].0} + KeySet(r[1..]) {
      var j :| 0 <= j < |r| && r[j].0 == k;
      if j > 0 {
        assert r[1..][j - 1].0 == k;
      }
    }
    forall k | k in KeySet(r[1..]) ensures k in KeySet(r) {
      var j :| 0 <= j < |r[1..]| && r[1..][j].0 == k;
      assert r[j + 1].0 == k;
    }
  }

  lemma KeySetSnoc(r: Record, j: nat)
    requires j < |r|
    ensures KeySet(r[..j + 1]) == KeySet(r[..j]) + {r[j].0}
  {
    assert r[..j + 1][j] == r[j];
    forall k | k in KeySet(r[..j + 1]) ensures k in KeySet(r[..j]) + {r[j].0} {
      var m :| 0 <= m < j + 1 && r[..j + 1][m].0 == k;
      if m < j {
        assert r[..j][m].0 == k;
      }
    }
    forall k | k in KeySet(r[..j]) ensures k in KeySet(r[..j + 1]) {
      var m :| 0 <= m < j && r[..j][m].0 == k;
      assert r[..j + 1][m].0 == k;
    }
  }

  /**
   With distinct keys, indexing finds the one entry holding the key, so a
   record with distinct keys behaves exactly like the source's dictionary.
   */
  lemma {:induction false} LookupDistinct(r: Record, key: string, v: Value)
    requires DistinctKeys(r)
    requires (key, v) in r
    ensures Lookup(r, key) == Some(v)
  {
    var j :| 0 <= j < |r| && r[j] == (key, v);
    if r[0].0 != key {
      assert j > 0;
      assert r[1..][j - 1] == (key, v);
      LookupDistinct(r[1..], key, v);
    }
  }
}
