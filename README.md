# kvstore: a verified model of the key-value backends and the workload loop

This project models the key-value core of `kvstore.py`, a benchmark harness for interchangeable
key-value backends:

- `DummyLocalDictKV`, the in-memory dictionary whose `get` returns `None` for a missing key and whose
  `put` overwrites. It is the reference semantics the other backends are meant to match.
- `Sharded.path_to_db`, the router from a key to the dbm shard file that holds it. With `levels == 0`
  every key goes to `<base_path>/single.dbm`. Otherwise the first `levels` two-character slices of
  the key's MD5 hex digest are joined with `/` and `_dbm` is appended.
- `ShardedDBMLocked.get` and `put`, over a filesystem modelled as a map from a path to the dbm
  file there. A dbm file is a map from key bytes to value bytes, and keys and values are
  UTF-8 encoded as the source does.
- The counting loop of `single_test_simulator`: hits, misses that put, bytes stored, total time.
- `KVTest.test01`, stated for the dictionary and for the sharded store.

The central theorem is `ShardedStore.ShardedBehavesAsDict`. Start on shard files that read key by
key as a dictionary `m`, and run any sequence of `get`/`put` calls. Then the sharded store returns
exactly what the flat dictionary returns on `m`. This holds for every configuration and every
digest function. It rests on two facts. First, `path_to_db` depends on the key alone. Second,
UTF-8 encoding is injective (`Utf8.EncodeInjective`) and decoding undoes it (`Utf8.DecodeEncode`).

Modules, one per component:

- `Wrappers`: Option and Result.
- `Utf8`: `str.encode("utf8")` and a strict `bytes.decode('utf8')`.
- `Decimal`: `str(n)`.
- `KvSpec`: the flat dictionary and traces of calls on it.
- `DictKV`: the class `DummyLocalDictKV`.
- `Sharding`: `path_to_db`.
- `ShardedStore`: the spec functions, the refinement lemmas and the class `ShardedDBMLocked`.
- `Simulator`: `single_test_simulator`.
- `KvTest`: `test01`.

Things outside the model are parameters:

- MD5 is a function parameter `md5: Bytes -> string`. It is applied to the key's UTF-8 bytes
  (line 107). Nothing about MD5 is assumed, except that the routing lemma asks for 32 lower-case
  hex digits.
- The `randint` draws, the `uuid4().hex` values and the clock differences `t1 - t0` are input
  sequences of `Simulator.SingleTestSimulator`, one entry per iteration.
- The backend the loop runs against is its abstract contents, a dictionary. It starts with what
  the backend held when it was constructed. The in-memory backend always refines it. The sharded
  one refines it when its files are `Valid()`, and `ShardedStore.EmptyRefines` and
  `ShardedStore.PutRefines` keep that true for files written only by `put`.

Edge cases, where the model follows the code:

- A negative `levels` is not rejected. `range(levels)` is then empty and the path is
  `<base_path>/_dbm` (`Sharding.SegmentCount`).
- Slices past the end of the digest give `""`, as Python slicing does (`Sharding.PySlice`), so more
  than 16 levels add empty segments (`Sharding.SegmentsOfDigest`).
- Every iteration of the loop that is not a hit does a `put` that adds a new key. So `hits` plus
  the number of keys added equals the iteration count (`Simulator.HitsPlusPuts`).
- A negative `iterations` is not rejected either. `range(iterations)` is then empty and the tuple
  is `(0, 0, iterations, 0)`, so `hits > iterations`; the model bounds `hits` by
  `max(iterations, 0)`, the number of iterations actually run (`Simulator.HitsAtMostIterations`).
- `test01` writes with `kv[k] = v`. No backend class defines that; it works only on a plain
  `dict` (lines 35-37). The model runs the same calls through `put`.

## Model

| member | source | states |
|---|---|---|
| `DictKV.DummyLocalDictKV.constructor` | 2022-12-10-kedzie-kvstore/kvstore.py:70-71 | a new in-memory backend holds no entries |
| `DictKV.DummyLocalDictKV.Get` | 2022-12-10-kedzie-kvstore/kvstore.py:73-76 | returns `None` exactly when the key is absent, otherwise the stored value; changes nothing |
| `DictKV.DummyLocalDictKV.Put` | 2022-12-10-kedzie-kvstore/kvstore.py:78-79 | the dict afterwards is the old one with the entry for `k` set to `v`; no other entry changes |
| `KvSpec.Lookup` | 2022-12-10-kedzie-kvstore/kvstore.py:73-76 | the dictionary's `get`: `None` when the key is absent, otherwise its value |
| `KvSpec.LookupAfterPut` | 2022-12-10-kedzie-kvstore/kvstore.py:73-79 | after `put(k, v)` a `get(k)` yields `v` and every other key reads as before |
| `Utf8.Encode` | 2022-12-10-kedzie-kvstore/kvstore.py:107 | `str.encode("utf8")`: each scalar value becomes its one- to four-byte UTF-8 sequence, in order |
| `Utf8.Decode` | 2022-12-10-kedzie-kvstore/kvstore.py:126 | strict `bytes.decode('utf8')`: `None` on a bad lead or continuation byte, a truncated, overlong or surrogate sequence, or a value above U+10FFFF; otherwise the decoded string |
| `Utf8.DecodeEncode` | 2022-12-10-kedzie-kvstore/kvstore.py:126-137 | decoding the UTF-8 encoding of any string gives back that string |
| `Utf8.EncodeDecode` | 2022-12-10-kedzie-kvstore/kvstore.py:126 | strict decoding succeeds only on the exact encoding of the string it returns |
| `Utf8.EncodeInjective` | 2022-12-10-kedzie-kvstore/kvstore.py:124-137 | distinct string keys have distinct byte keys in a dbm file |
| `Decimal.NatToString` | 2022-12-10-kedzie-kvstore/kvstore.py:49 | `str(n)` for a natural number: its decimal digits, most significant first, no leading zeros |
| `Decimal.NatToStringShape` | 2022-12-10-kedzie-kvstore/kvstore.py:49 | `str(n)` is a non-empty numeral of decimal digits, longer than one digit exactly when `n >= 10` |
| `Decimal.ValueOfNatToString` | 2022-12-10-kedzie-kvstore/kvstore.py:49 | read back digit by digit (Horner's rule), `str(n)` denotes `n` |
| `Decimal.NatToStringInjective` | 2022-12-10-kedzie-kvstore/kvstore.py:49-53 | two draws give the same key `k1` exactly when they are the same integer |
| `Decimal.NatToStringLengthMonotone` | 2022-12-10-kedzie-kvstore/kvstore.py:49 | a larger number never has a shorter numeral |
| `Sharding.PathToDb` | 2022-12-10-kedzie-kvstore/kvstore.py:103-110 | `base_path + "/single.dbm"` when `levels == 0`; otherwise `base_path + "/"`, then the `/`-join of the first `max(levels, 0)` two-character slices (clamped as Python slices) of the digest of the key's UTF-8 bytes, then `"_dbm"` |
| `Sharding.SingleShardForEveryKey` | 2022-12-10-kedzie-kvstore/kvstore.py:104-105 | with `levels == 0` every key maps to `base_path + "/single.dbm"` |
| `Sharding.SegmentsOfDigest` | 2022-12-10-kedzie-kvstore/kvstore.py:107-108 | segment `x` of a 32-digit digest is digits `2x, 2x+1` for the first 16 levels and empty beyond |
| `Sharding.JoinInjective` | 2022-12-10-kedzie-kvstore/kvstore.py:108 | joining equally many slash-free parts with `/` determines the parts |
| `Sharding.SegmentsIffPrefix` | 2022-12-10-kedzie-kvstore/kvstore.py:108 | two digests give the same segments exactly when their first `2 * levels` characters agree |
| `Sharding.SameShardIffSameDigestPrefix` | 2022-12-10-kedzie-kvstore/kvstore.py:103-110 | with `levels != 0`, two keys share a shard path exactly when their hex digests agree on the first `2 * max(levels, 0)` digits (none for a negative `levels`, when every key goes to `<base_path>/_dbm`) |
| `ShardedStore.ShardGet` | 2022-12-10-kedzie-kvstore/kvstore.py:117-126 | `get` on the shard files: `None` when the key's shard file does not exist or lacks the encoded key, a `UnicodeDecodeError` when the stored bytes are not UTF-8, otherwise the decoded value |
| `ShardedStore.ShardPut` | 2022-12-10-kedzie-kvstore/kvstore.py:128-137 | `put` on the shard files: the key's shard file, created empty if missing, maps the encoded key to the encoded value; every other file is unchanged |
| `ShardedStore.GetMissing` | 2022-12-10-kedzie-kvstore/kvstore.py:117-126 | `get` returns `None` when the shard file does not exist or lacks the key |
| `ShardedStore.GetAfterPut` | 2022-12-10-kedzie-kvstore/kvstore.py:117-137 | after `put(k, v)`, `get(k)` returns `v`, whatever the shard files held before |
| `ShardedStore.GetOtherAfterPut` | 2022-12-10-kedzie-kvstore/kvstore.py:128-137 | `put(k, v)` leaves every other key reading as before, also keys in the same shard |
| `ShardedStore.EmptyRefines` | 2022-12-10-kedzie-kvstore/kvstore.py:117-120 | a store with no shard files reads as the empty dictionary |
| `ShardedStore.PutRefines` | 2022-12-10-kedzie-kvstore/kvstore.py:128-137 | `put` on the shard files and on the dictionary keeps the two reading alike |
| `ShardedStore.ShardedBehavesAsDict` | 2022-12-10-kedzie-kvstore/kvstore.py:112-137 | every sequence of `get`/`put` calls returns on the sharded store what it returns on the flat dictionary it refines |
| `ShardedStore.ShardedDBMLocked.constructor` | 2022-12-10-kedzie-kvstore/kvstore.py:99-101 | the store keeps `base_path`, `levels` and the files already on disk; it refines a given dictionary exactly when its files read key by key as that dictionary |
| `ShardedStore.ShardedDBMLocked.Get` | 2022-12-10-kedzie-kvstore/kvstore.py:117-126 | returns the decoded value from the key's shard file, `None` if the file or key is missing, an error if the bytes are not UTF-8; changes nothing; on a store that refines its dictionary, the result is that dictionary's `get` |
| `ShardedStore.ShardedDBMLocked.Put` | 2022-12-10-kedzie-kvstore/kvstore.py:128-137 | the key's shard file, created if missing, gets the encoded value under the encoded key; no other file changes; the refined dictionary gets `k := v` and the refinement is kept |
| `KvTest.Test01OnDict` | 2022-12-10-kedzie-kvstore/kvstore.py:23-28 | the calls of `test01` return `None`, `"def"`, `"ghi"` on any dictionary without `"XYZ"` |
| `KvTest.Test01OnSharded` | 2022-12-10-kedzie-kvstore/kvstore.py:23-28 | the calls of `test01` return the same values on an empty sharded store, for any configuration and digest |
| `KvTest.Test01OnDummyLocalDictKV` | 2022-12-10-kedzie-kvstore/kvstore.py:23-28 | the calls of `test01`, with `put` for `kv[k] = v`, on a new `DummyLocalDictKV` object return `None`, `"def"`, `"ghi"` |
| `KvTest.Test01OnShardedDBMLocked` | 2022-12-10-kedzie-kvstore/kvstore.py:23-28 | the calls of `test01`, with `put` for `kv[k] = v`, on a `ShardedDBMLocked` object whose files lack `"XYZ"` return `None`, `"def"`, `"ghi"` |
| `Simulator.Step` | 2022-12-10-kedzie-kvstore/kvstore.py:49-60 | one iteration: if `k1` is present, `hits` goes up by one and nothing is written; otherwise `k1 := v1` is put and `bytes_stored` grows by `len(k1) + len(v1)`; the duration is added to `total_time_ns` either way |
| `Simulator.Run` | 2022-12-10-kedzie-kvstore/kvstore.py:42-60 | the backend's contents and the three counters after the first `n` iterations, starting from zero counters and the initial contents |
| `Simulator.SingleTestSimulator` | 2022-12-10-kedzie-kvstore/kvstore.py:40-66 | the loop's counters and final contents are those of the reference run; the tuple's third field is `iterations`; nothing is emitted when `q` is falsy |
| `Simulator.StoreKeys` | 2022-12-10-kedzie-kvstore/kvstore.py:48-58 | the backend holds exactly its initial keys plus every key drawn so far |
| `Simulator.SampledKeysPresent` | 2022-12-10-kedzie-kvstore/kvstore.py:53-57 | after each iteration its key `k1` is in the backend |
| `Simulator.EntriesNeverChange` | 2022-12-10-kedzie-kvstore/kvstore.py:53-57 | an entry keeps its value once present: hits write nothing, puts only add |
| `Simulator.HitsAtMostIterations` | 2022-12-10-kedzie-kvstore/kvstore.py:43-55 | `0 <= hits <= max(iterations, 0)`: `hits` never exceeds the number of iterations run |
| `Simulator.HitsPlusPuts` | 2022-12-10-kedzie-kvstore/kvstore.py:53-58 | hits plus the number of keys added by puts equals the number of iterations |
| `Simulator.MissesIffAbsent` | 2022-12-10-kedzie-kvstore/kvstore.py:53-54 | an iteration misses exactly when its key is neither initial nor drawn earlier |
| `Simulator.CountersCountMisses` | 2022-12-10-kedzie-kvstore/kvstore.py:43-58 | `hits` is the iterations minus those that missed, and `bytes_stored` sums `len(k1) + len(v1)` over exactly the misses |
| `Simulator.NewKeysInKeyRange` | 2022-12-10-kedzie-kvstore/kvstore.py:48-49 | every key the loop adds is `str(x)` for some `x` in `[0, key_range]` |
| `Simulator.BytesStoredBound` | 2022-12-10-kedzie-kvstore/kvstore.py:49-58 | with 32-character values, `bytes_stored <= misses * (len(str(key_range)) + 32)` |

## Left out

- `SingleSQLite`: a thin wrapper over SQL text, journal modes and commits. Its behaviour lives in the sqlite3 library.
- `filelock.FileLock`, in `get` and `put` and the `self.lock` field that `get` sets: cross-process locking. The model is sequential, so there are no other processes to exclude.
- `pathlib.Path.mkdir` in `put`: directories are not modelled; a shard file's path is just a string key.
- `dbm.open`: a dbm file is its contents. The model assumes the dbm module stores the unit at exactly `db_path`, which is what the `os.path.exists` check relies on.
- `ShardedStore.ShardedDBMLocked.Get`: a Python `str` can hold lone surrogates, which a Dafny `char` cannot; the model's strings are Unicode scalar values only.
- `hashlib.md5`: a function parameter. The load-spread property of MD5 is not stated.
- `random.Random`, `uuid.uuid4` and `time.time_ns`: their outputs are input sequences of the loop.
- `Simulator.SingleTestSimulator`: takes the draws as given natural numbers and has no `key_range`, so the `ValueError` that `randint(0, key_range)` raises when `key_range < 0` (line 49) is not modelled; the lemmas about key ranges take `draws[j] <= key_range` as a hypothesis. A `get` that raises (a sharded backend's `UnicodeDecodeError` on bytes that are not UTF-8, line 126) ends the source's loop before `q.put` (line 66) and nothing is emitted; the model's loop runs on the abstract dictionary, always finishes and emits, and does not capture that case.
- The progress `print` in `single_test_simulator` (lines 61-62): console output.
- `process_results`: float division and `round`.
- `driver` and `__main__`: multiprocessing pools, processes, joins and queues. Other workers writing to the same store between one iteration's `get` and `put` are not modelled.
- `DictKV.DummyLocalDictKV.constructor`: the unused `config` argument is dropped.
