/** `DummyLocalDictKV`: the in-memory baseline backend, a dict held in its `kv` field. */
module DictKV {
  import opened Wrappers
  import opened KvSpec

  class DummyLocalDictKV {
    var kv: Dict

    /** The configuration argument is ignored by the source; the dict starts empty. */
    constructor ()
      ensures kv == map[]
    {
      kv := map[];
    }

    /** Returns `None` for a missing key, the stored value otherwise; changes nothing. */
    method Get(k: string) returns (r: Option<string>)
      ensures r.None? <==> k !in kv
      ensures r.Some? ==> r.value == kv[k]
    {
      if k !in kv {
        return None;
      }
      return Some(kv[k]);
    }

    /** Overwrites the entry for `k`; every other entry stays as it was. */
    method Put(k: string, v: string)
      modifies this
      ensures kv == old(kv)[k := v]
    {
      kv := kv[k := v];
    }
  }
}
