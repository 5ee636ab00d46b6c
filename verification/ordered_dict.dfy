/**
 * An insertion-ordered dictionary from parameter names to values, the way a
 * Python `dict` of strings behaves: iteration follows first insertion, and
 * assigning to a present key overwrites its value where it stands.
 */
module OrderedDict {
  import opened Wrappers

  datatype Entry = Entry(key: string, value: string)

  /** The entries in iteration order; a well-formed dict has distinct keys. */
  type Dict = seq<Entry>

  function Keys(d: Dict): (ks: seq<string>)
    ensures |ks| == |d|
  {
    if d == [] then [] else [d[0].key] + Keys(d[1..])
  }

  lemma {:induction false} KeyAt(d: Dict, i: nat)
    requires i < |d|
    ensures Keys(d)[i] == d[i].key
  {
    if i > 0 {
      KeyAt(d[1..], i - 1);
    }
  }

  predicate NoDuplicates(s: seq<string>) {
    forall i, j :: 0 <= i < j < |s| ==> s[i] != s[j]
  }

  predicate DistinctKeys(d: Dict) {
    NoDuplicates(Keys(d))
  }

  /** `d[k]`: the value stored under `k`, or None where Python raises KeyError. */
  function Lookup(d: Dict, k: string): (r: Option<string>)
    ensures r.Some? <==> k in Keys(d)
    ensures r.Some? ==> Entry(k, r.value) in d
  {
    if d == [] then None
    else if d[0].key == k then Some(d[0].value)
    else Lookup(d[1..], k)
  }

  /** In a dict with distinct keys an entry determines what `Lookup` finds. */
  lemma {:induction false} LookupEntry(d: Dict, k: string, v: string)
    requires DistinctKeys(d) && Entry(k, v) in d
    ensures Lookup(d, k) == Some(v)
  {
    var i :| 0 <= i < |d| && d[i] == Entry(k, v);
    if i > 0 {
      KeyAt(d, 0);
      KeyAt(d, i);
      assert Keys(d)[0] != Keys(d)[i];
      assert d[1..][i - 1] == d[i];
      assert Keys(d[1..]) == Keys(d)[1..];
      LookupEntry(d[1..], k, v);
    }
  }

  /**
   * `d[k] = v`: overwrites the value of a present key in its place, or
   * appends a new entry at the end.
   */
  function Put(d: Dict, k: string, v: string): (r: Dict)
    ensures Keys(r) == if k in Keys(d) then Keys(d) else Keys(d) + [k]
  {
    if d == [] then [Entry(k, v)]
    else if d[0].key == k then
      var r := [Entry(k, v)] + d[1..];
      assert r[1..] == d[1..];
      r
    else
      var r := [d[0]] + Put(d[1..], k, v);
      assert r[1..] == Put(d[1..], k, v);
      r
  }

  /** After `d[k] = v`, `d[k]` is `v`. */
  lemma {:induction false} PutLookup(d: Dict, k: string, v: string)
    ensures Lookup(Put(d, k, v), k) == Some(v)
  {
    if d != [] && d[0].key != k {
      assert Put(d, k, v)[1..] == Put(d[1..], k, v);
      PutLookup(d[1..], k, v);
    }
  }

  /** Assigning keeps the keys distinct. */
  lemma PutDistinct(d: Dict, k: string, v: string)
    requires DistinctKeys(d)
    ensures DistinctKeys(Put(d, k, v))
  {
    var ks := Keys(d);
    if k !in ks {
      forall i, j | 0 <= i < j < |ks + [k]| ensures (ks + [k])[i] != (ks + [k])[j] {
        if j == |ks| {
          assert (ks + [k])[i] == ks[i];
        }
      }
    }
  }

  /** Assigning to `k` leaves the value of every other key as it was. */
  lemma {:induction false} PutOthers(d: Dict, k: string, v: string, other: string)
    requires other != k
    ensures Lookup(Put(d, k, v), other) == Lookup(d, other)
  {
    if d != [] && d[0].key != k {
      var r := Put(d, k, v);
      assert r[1..] == Put(d[1..], k, v);
      PutOthers(d[1..], k, v, other);
    } else if d != [] {
      assert Put(d, k, v)[1..] == d[1..];
    }
  }

  /** A key that is not yet present goes to the end. */
  lemma {:induction false} PutNew(d: Dict, k: string, v: string)
    requires k !in Keys(d)
    ensures Put(d, k, v) == d + [Entry(k, v)]
  {
    if d != [] {
      assert Keys(d) == [d[0].key] + Keys(d[1..]);
      assert d[0].key != k;
      PutNew(d[1..], k, v);
      calc {
        Put(d, k, v);
        [d[0]] + Put(d[1..], k, v);
        [d[0]] + (d[1..] + [Entry(k, v)]);
        { assert d == [d[0]] + d[1..]; }
        d + [Entry(k, v)];
      }
    }
  }

  /** Assigning the same value twice is assigning it once. */
  lemma {:induction false} PutTwice(d: Dict, k: string, v: string)
    ensures Put(Put(d, k, v), k, v) == Put(d, k, v)
  {
    if d != [] && d[0].key != k {
      var r := Put(d, k, v);
      assert r[0] == d[0] && r[1..] == Put(d[1..], k, v);
      PutTwice(d[1..], k, v);
      assert Put(r, k, v)[1..] == Put(r[1..], k, v);
    } else if d != [] {
      assert Put(d, k, v)[1..] == d[1..];
    }
  }

  lemma {:induction false} KeysAppend(a: Dict, b: Dict)
    ensures Keys(a + b) == Keys(a) + Keys(b)
  {
    if a == [] {
      assert a + b == b;
    } else {
      assert (a + b)[1..] == a[1..] + b;
      KeysAppend(a[1..], b);
    }
  }
}
