/**
 * A plain JavaScript object with string keys and string values, as the
 * insertion-ordered list of its entries (the order `Object.values` and
 * `Object.entries` enumerate).
 */
module Records {
  import opened Wrappers

  type Record = seq<(string, string)>

  /** What every JavaScript object guarantees: no key occurs twice. */
  predicate DistinctKeys(r: Record) {
    forall i, j :: 0 <= i < j < |r| ==> r[i].0 != r[j].0
  }

  /** `Object.values(r)` */
  function Values(r: Record): seq<string> {
    seq(|r|, i requires 0 <= i < |r| => r[i].1)
  }

  /** `r[k]`: the value stored under `k`, or `undefined`. */
  function Get(r: Record, k: string): (v: Option<string>)
    ensures v.Some? ==> (k, v.value) in r
    ensures v.None? ==> forall i :: 0 <= i < |r| ==> r[i].0 != k
  {
    if r == [] then None else if r[0].0 == k then Some(r[0].1) else Get(r[1..], k)
  }

  /**
   * `r[k] = v`: a key already present keeps its place and takes the new
   * value; a new key is added at the end.
   */
  function Put(r: Record, k: string, v: string): (r': Record)
    ensures Get(r', k) == Some(v)
    ensures forall k' :: k' != k ==> Get(r', k') == Get(r, k')
    ensures forall e :: e in r' ==> e in r || e == (k, v)
    ensures |r| <= |r'| <= |r| + 1
  {
    if r == [] then [(k, v)]
    else if r[0].0 == k then [(k, v)] + r[1..]
    else [r[0]] + Put(r[1..], k, v)
  }

  /** In a record with distinct keys, the first key occurs nowhere else. */
  lemma HeadKeyNotInTail(r: Record, e: (string, string))
    requires DistinctKeys(r) && r != [] && e in r[1..]
    ensures e.0 != r[0].0
  {
    var i :| 0 <= i < |r[1..]| && r[1..][i] == e;
    assert r[i + 1] == e;
  }

  /** Assigning a property never makes a key occur twice. */
  lemma {:induction false} PutDistinct(r: Record, k: string, v: string)
    requires DistinctKeys(r)
    ensures DistinctKeys(Put(r, k, v))
  {
    if r != [] && r[0].0 != k {
      var rest := Put(r[1..], k, v);
      assert DistinctKeys(r[1..]);
      PutDistinct(r[1..], k, v);
      forall j | 0 <= j < |rest|
        ensures rest[j].0 != r[0].0
      {
        assert rest[j] in rest;
        if rest[j] != (k, v) {
          HeadKeyNotInTail(r, rest[j]);
        }
      }
      var r' := [r[0]] + rest;
      assert Put(r, k, v) == r';
      forall i, j | 0 <= i < j < |r'|
        ensures r'[i].0 != r'[j].0
      {
        if i > 0 {
          assert r'[i] == rest[i - 1] && r'[j] == rest[j - 1];
        } else {
          assert r'[j] == rest[j - 1];
        }
      }
    }
  }

  /** Looking a key up in a record grown by one entry at the end. */
  lemma {:induction false} GetSnoc(r: Record, k': string, v: string, k: string)
    ensures Get(r + [(k', v)], k) == if Get(r, k).Some? then Get(r, k) else if k == k' then Some(v) else None
  {
    if r != [] {
      assert (r + [(k', v)])[1..] == r[1..] + [(k', v)];
      GetSnoc(r[1..], k', v, k);
    }
  }
}
