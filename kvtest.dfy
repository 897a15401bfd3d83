/**
 * `KVTest.test01`: a get of a key never put is `None`, a put is read back,
 * and a second put to the same key overwrites the first.
 */
module KvTest {
  import opened Wrappers
  import opened Utf8
  import opened KvSpec
  import opened Sharding
  import opened ShardedStore
  import opened DictKV

  /** The calls `test01` makes, in order. */
  const Test01Ops: seq<Op> :=
    [Get("XYZ"), Put("abc", "def"), Get("abc"), Put("abc", "ghi"), Get("abc")]

  /** `test01` passes on every dictionary that does not hold "XYZ". */
  lemma Test01OnDict(m: Dict)
    requires "XYZ" !in m
    ensures RunDict(m, Test01Ops) == [None, None, Some("def"), None, Some("ghi")]
  {
  }

  lemma AllOkOfTest01Outputs()
    ensures AllOk([None, None, Some("def"), None, Some("ghi")])
         == [Ok(None), Ok(None), Ok(Some("def")), Ok(None), Ok(Some("ghi"))]
  {
  }

  /** `test01` passes on the sharded store, whatever the configuration and digest, when it starts empty. */
  lemma Test01OnSharded(config: Config, md5: Bytes -> string)
    ensures RunSharded(config, md5, map[], Test01Ops)
         == [Ok(None), Ok(None), Ok(Some("def")), Ok(None), Ok(Some("ghi"))]
  {
    EmptyRefines(config, md5);
    ShardedBehavesAsDict(config, md5, map[], map[], Test01Ops);
    Test01OnDict(map[]);
    AllOkOfTest01Outputs();
  }

  /** `test01` on a fresh `DummyLocalDictKV` object: the three values it asserts. */
  method Test01OnDummyLocalDictKV() returns (missing: Option<string>, first: Option<string>, second: Option<string>)
    ensures missing == None && first == Some("def") && second == Some("ghi")
  {
    var kv := new DummyLocalDictKV();
    missing := kv.Get("XYZ");
    kv.Put("abc", "def");
    first := kv.Get("abc");
    kv.Put("abc", "ghi");
    second := kv.Get("abc");
  }

  /** `test01` on a `ShardedDBMLocked` object over shard files in which "XYZ" reads as absent. */
  method Test01OnShardedDBMLocked(config: Config, md5: Bytes -> string, files: FileSystem)
    returns (missing: Read, first: Read, second: Read)
    requires ShardGet(config, md5, files, "XYZ") == Ok(None)
    ensures missing == Ok(None) && first == Ok(Some("def")) && second == Ok(Some("ghi"))
  {
    var kv := new ShardedDBMLocked(config, md5, files, map[]);
    missing := kv.Get("XYZ");
    var before := kv.files;
    kv.Put("abc", "def");
    GetAfterPut(config, md5, before, "abc", "def");
    first := kv.Get("abc");
    before := kv.files;
    kv.Put("abc", "ghi");
    GetAfterPut(config, md5, before, "abc", "ghi");
    second := kv.Get("abc");
  }
}
