/**
 * The key-value contract every backend is meant to meet: a flat dictionary
 * from string keys to string values, where `get` of an absent key yields
 * `None` and `put` overwrites.
 */
module KvSpec {
  import opened Wrappers

  type Dict = map<string, string>

  /** `get(k)`: the stored value, or `None` when `k` was never put. */
  function Lookup(m: Dict, k: string): (r: Option<string>)
    ensures r.None? <==> k !in m
    ensures r.Some? ==> r.value == m[k]
  {
    if k in m then Some(m[k]) else None
  }

  /** One call on a backend. */
  datatype Op = Get(key: string) | Put(key: string, value: string)

  /** What each call of `ops` returns on the flat dictionary; `put` returns `None`. */
  function RunDict(m: Dict, ops: seq<Op>): (outs: seq<Option<string>>)
    ensures |outs| == |ops|
    decreases |ops|
  {
    if ops == [] then []
    else match ops[0]
      case Get(k) => [Lookup(m, k)] + RunDict(m, ops[1..])
      case Put(k, v) => [None] + RunDict(m[k := v], ops[1..])
  }

  /** After `put(k, v)`, `get(k)` returns `v` and every other key reads as before. */
  lemma LookupAfterPut(m: Dict, k: string, v: string, k': string)
    ensures Lookup(m[k := v], k) == Some(v)
    ensures k' != k ==> Lookup(m[k := v], k') == Lookup(m, k')
  {
  }
}
