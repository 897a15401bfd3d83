/**
 * `ShardedDBMLocked`: get and put over shard files. The filesystem is a map
 * from a path to the dbm file there, and a dbm file is a map from key bytes
 * to value bytes. Locks, directory creation and `dbm.open` are not modelled.
 */
module ShardedStore {
  import opened Wrappers
  import opened Utf8
  import opened KvSpec
  import opened Sharding

  /** The contents of one dbm file. */
  type Shard = map<Bytes, Bytes>

  /** The shard files that exist, by path. */
  type FileSystem = map<string, Shard>

  /** `db[k].decode('utf8')` raising on bytes that are not UTF-8. */
  datatype ReadError = UnicodeDecodeError

  type Read = Result<Option<string>, ReadError>

  /** What `ShardedDBMLocked.get(k)` returns on filesystem `fs`. */
  function ShardGet(config: Config, md5: Bytes -> string, fs: FileSystem, k: string): Read {
    var path := PathToDb(config, md5, k);
    if path !in fs then Ok(None)
    else
      var key := Encode(k);
      if key !in fs[path] then Ok(None)
      else match Decode(fs[path][key])
        case None => Err(UnicodeDecodeError)
        case Some(s) => Ok(Some(s))
  }

  /** The filesystem after `ShardedDBMLocked.put(k, v)`: the shard is created if missing. */
  function ShardPut(config: Config, md5: Bytes -> string, fs: FileSystem, k: string, v: string): FileSystem {
    var path := PathToDb(config, md5, k);
    var shard := if path in fs then fs[path] else map[];
    fs[path := shard[Encode(k) := Encode(v)]]
  }

  /** A shard file that does not exist, or lacks the key, reads as `None`. */
  lemma GetMissing(config: Config, md5: Bytes -> string, fs: FileSystem, k: string)
    requires var path := PathToDb(config, md5, k); path !in fs || Encode(k) !in fs[path]
    ensures ShardGet(config, md5, fs, k) == Ok(None)
  {
  }

  /** After `put(k, v)`, `get(k)` returns `v`: the encode on write and the decode on read round-trip. */
  lemma GetAfterPut(config: Config, md5: Bytes -> string, fs: FileSystem, k: string, v: string)
    ensures ShardGet(config, md5, ShardPut(config, md5, fs, k, v), k) == Ok(Some(v))
  {
    DecodeEncode(v);
  }

  /** `put(k, v)` leaves every other key as it read before, in other shards and in the same one. */
  lemma GetOtherAfterPut(config: Config, md5: Bytes -> string, fs: FileSystem, k: string, v: string, k': string)
    requires k' != k
    ensures ShardGet(config, md5, ShardPut(config, md5, fs, k, v), k') == ShardGet(config, md5, fs, k')
  {
    EncodeInjective(k, k');
  }

  /** The shard files `fs` read, key by key, exactly as the dictionary `m`. */
  ghost predicate Refines(config: Config, md5: Bytes -> string, fs: FileSystem, m: Dict) {
    forall k :: ShardGet(config, md5, fs, k) == Ok(Lookup(m, k))
  }

  /** A store with no shard files yet is the empty dictionary. */
  lemma EmptyRefines(config: Config, md5: Bytes -> string)
    ensures Refines(config, md5, map[], map[])
  {
  }

  /** `put` on the shards and on the dictionary keep them in step. */
  lemma PutRefines(config: Config, md5: Bytes -> string, fs: FileSystem, m: Dict, k: string, v: string)
    requires Refines(config, md5, fs, m)
    ensures Refines(config, md5, ShardPut(config, md5, fs, k, v), m[k := v])
  {
    forall k' ensures ShardGet(config, md5, ShardPut(config, md5, fs, k, v), k') == Ok(Lookup(m[k := v], k')) {
      if k' == k {
        GetAfterPut(config, md5, fs, k, v);
      } else {
        GetOtherAfterPut(config, md5, fs, k, v, k');
      }
    }
  }

  /** What each call of `ops` returns on the sharded store; `put` returns `None`. */
  function RunSharded(config: Config, md5: Bytes -> string, fs: FileSystem, ops: seq<Op>): (outs: seq<Read>)
    ensures |outs| == |ops|
    decreases |ops|
  {
    if ops == [] then []
    else match ops[0]
      case Get(k) => [ShardGet(config, md5, fs, k)] + RunSharded(config, md5, fs, ops[1..])
      case Put(k, v) => [Ok(None)] + RunSharded(config, md5, ShardPut(config, md5, fs, k, v), ops[1..])
  }

  function AllOk(outs: seq<Option<string>>): seq<Read> {
    if outs == [] then [] else [Ok(outs[0])] + AllOk(outs[1..])
  }

  /**
   * The sharded store behaves exactly like the flat dictionary: started on
   * shard files that read as `m`, every sequence of calls returns what it
   * returns on `m`, for every configuration and every digest function.
   */
  lemma {:induction false} ShardedBehavesAsDict(config: Config, md5: Bytes -> string, fs: FileSystem, m: Dict, ops: seq<Op>)
    requires Refines(config, md5, fs, m)
    ensures RunSharded(config, md5, fs, ops) == AllOk(RunDict(m, ops))
    decreases |ops|
  {
    if ops != [] {
      match ops[0]
      case Get(k) =>
        var outs := RunDict(m, ops);
        assert outs == [Lookup(m, k)] + RunDict(m, ops[1..]);
        assert outs[1..] == RunDict(m, ops[1..]);
        assert ShardGet(config, md5, fs, k) == Ok(Lookup(m, k));
        ShardedBehavesAsDict(config, md5, fs, m, ops[1..]);
      case Put(k, v) =>
        var outs := RunDict(m, ops);
        assert outs == [None] + RunDict(m[k := v], ops[1..]);
        assert outs[1..] == RunDict(m[k := v], ops[1..]);
        PutRefines(config, md5, fs, m, k, v);
        ShardedBehavesAsDict(config, md5, ShardPut(config, md5, fs, k, v), m[k := v], ops[1..]);
    }
  }

  class ShardedDBMLocked {
    const config: Config
    const md5: Bytes -> string
    var files: FileSystem
    /** The dictionary the shard files are meant to read as. */
    ghost var contents: Dict

    /** The shard files read, key by key, as `contents`. */
    ghost predicate Valid()
      reads this
    {
      Refines(config, md5, files, contents)
    }

    constructor (config: Config, md5: Bytes -> string, files: FileSystem, ghost m: Dict)
      ensures this.config == config && this.md5 == md5 && this.files == files && contents == m
      ensures Valid() <==> Refines(config, md5, files, m)
    {
      this.config := config;
      this.md5 := md5;
      this.files := files;
      contents := m;
    }

    /** `get(k)`: looks in the key's shard file only if it exists; changes nothing. */
    method Get(k: string) returns (r: Read)
      ensures r == ShardGet(config, md5, files, k)
      ensures Valid() ==> r == Ok(Lookup(contents, k))
    {
      var dbPath := PathToDb(config, md5, k);
      if dbPath !in files {
        return Ok(None);
      }
      var db := files[dbPath];
      var key := Encode(k);
      if key !in db {
        return Ok(None);
      }
      var s := Decode(db[key]);
      match s {
        case None => r := Err(UnicodeDecodeError);
        case Some(value) => r := Ok(Some(value));
      }
    }

    /** `put(k, v)`: opens, creating if needed, the key's shard file and writes the encoded value. */
    method Put(k: string, v: string)
      modifies this`files, this`contents
      ensures files == ShardPut(config, md5, old(files), k, v)
      ensures contents == old(contents)[k := v]
      ensures old(Valid()) ==> Valid()
    {
      var dbPath := PathToDb(config, md5, k);
      if dbPath !in files {
        files := files[dbPath := map[]];
      }
      files := files[dbPath := files[dbPath][Encode(k) := Encode(v)]];
      if old(Valid()) {
        PutRefines(config, md5, old(files), old(contents), k, v);
      }
      contents := contents[k := v];
    }
  }
}
