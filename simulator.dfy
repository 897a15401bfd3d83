/**
 * The counting loop of `single_test_simulator`. The backend is its abstract
 * contents (a dictionary, which both backends refine); the `randint` draws,
 * the `uuid4().hex` values and the measured durations `t1 - t0` are inputs,
 * one per iteration.
 */
module Simulator {
  import opened Wrappers
  import opened KvSpec
  import opened Decimal

  /** The tuple `(total_time_ns, hits, iterations, bytes_stored)` put on the queue. */
  datatype Metrics = Metrics(totalTimeNs: int, hits: int, iterations: int, bytesStored: int)

  /** The loop's running state: the backend's contents and its three counters. */
  datatype Tally = Tally(store: Dict, hits: nat, bytesStored: nat, totalTimeNs: int)

  /** `len(range(iterations))`. */
  function IterationCount(iterations: int): nat {
    if iterations > 0 then iterations else 0
  }

  /** One iteration: a hit counts, a miss puts the value and counts its characters. */
  function Step(t: Tally, k: string, v: string, dt: int): Tally {
    if k in t.store then Tally(t.store, t.hits + 1, t.bytesStored, t.totalTimeNs + dt)
    else Tally(t.store[k := v], t.hits, t.bytesStored + |k| + |v|, t.totalTimeNs + dt)
  }

  /** The state after the first `n` iterations, starting from a backend holding `init`. */
  function Run(init: Dict, draws: seq<nat>, uuids: seq<string>, durations: seq<int>, n: nat): Tally
    requires n <= |draws| && n <= |uuids| && n <= |durations|
  {
    if n == 0 then Tally(init, 0, 0, 0)
    else Step(Run(init, draws, uuids, durations, n - 1), NatToString(draws[n - 1]), uuids[n - 1], durations[n - 1])
  }

  /** `single_test_simulator`: returns what it puts on the queue (nothing when `q` is falsy) and the backend's final contents. */
  method SingleTestSimulator(q: bool, init: Dict, iterations: int,
                             draws: seq<nat>, uuids: seq<string>, durations: seq<int>)
    returns (emitted: Option<Metrics>, kv: Dict)
    requires |draws| == |uuids| == |durations| == IterationCount(iterations)
    ensures var t := Run(init, draws, uuids, durations, |draws|);
      && kv == t.store
      && emitted == if q then Some(Metrics(t.totalTimeNs, t.hits, iterations, t.bytesStored)) else None
  {
    var totalTimeNs: int, hits: nat, bytesStored: nat := 0, 0, 0;
    kv := init;
    for i := 0 to |draws|
      invariant Run(init, draws, uuids, durations, i) == Tally(kv, hits, bytesStored, totalTimeNs)
    {
      var k1 := NatToString(draws[i]);
      var v1 := uuids[i];
      var r1 := Lookup(kv, k1);
      if r1 != None {
        hits := hits + 1;
      } else {
        kv := kv[k1 := v1];
        bytesStored := bytesStored + |k1| + |v1|;
      }
      totalTimeNs := totalTimeNs + durations[i];
    }
    if q {
      emitted := Some(Metrics(totalTimeNs, hits, iterations, bytesStored));
    } else {
      emitted := None;
    }
  }

  /** The keys drawn in the first `n` iterations. */
  function KeysDrawn(draws: seq<nat>, n: nat): set<string>
    requires n <= |draws|
  {
    if n == 0 then {} else KeysDrawn(draws, n - 1) + {NatToString(draws[n - 1])}
  }

  /** A key was drawn in the first `n` iterations exactly when some iteration before `n` drew it. */
  lemma {:induction false} KeysDrawnMembers(draws: seq<nat>, n: nat, k: string)
    requires n <= |draws|
    ensures k in KeysDrawn(draws, n) <==> exists j :: 0 <= j < n && k == NatToString(draws[j])
  {
    if n > 0 {
      KeysDrawnMembers(draws, n - 1, k);
      if k == NatToString(draws[n - 1]) {
        assert 0 <= n - 1 < n && k == NatToString(draws[n - 1]);
      }
    }
  }

  /** One iteration adds its key to the backend's keys, by a hit or by the put. */
  lemma StepKeys(init: Dict, draws: seq<nat>, uuids: seq<string>, durations: seq<int>, n: nat)
    requires 0 < n <= |draws| && n <= |uuids| && n <= |durations|
    ensures Run(init, draws, uuids, durations, n).store.Keys
         == Run(init, draws, uuids, durations, n - 1).store.Keys + {NatToString(draws[n - 1])}
  {
  }

  /** The backend holds the initial keys and every key drawn so far, and nothing else. */
  lemma {:induction false} StoreKeys(init: Dict, draws: seq<nat>, uuids: seq<string>, durations: seq<int>, n: nat)
    requires n <= |draws| && n <= |uuids| && n <= |durations|
    ensures Run(init, draws, uuids, durations, n).store.Keys == init.Keys + KeysDrawn(draws, n)
  {
    if n > 0 {
      StoreKeys(init, draws, uuids, durations, n - 1);
      StepKeys(init, draws, uuids, durations, n);
      var a, b, c := init.Keys, KeysDrawn(draws, n - 1), {NatToString(draws[n - 1])};
      assert (a + b) + c == a + (b + c);
    } else {
      assert init.Keys + {} == init.Keys;
    }
  }

  /** After each iteration its key is in the backend, by a hit or by the put. */
  lemma SampledKeysPresent(init: Dict, draws: seq<nat>, uuids: seq<string>, durations: seq<int>, n: nat)
    requires n <= |draws| && n <= |uuids| && n <= |durations|
    ensures forall j :: 0 <= j < n ==> NatToString(draws[j]) in Run(init, draws, uuids, durations, n).store
  {
    StoreKeys(init, draws, uuids, durations, n);
    forall j | 0 <= j < n
      ensures NatToString(draws[j]) in Run(init, draws, uuids, durations, n).store
    {
      KeysDrawnMembers(draws, n, NatToString(draws[j]));
    }
  }

  /** An entry, once in the backend, keeps its value: a hit writes nothing and a put only adds. */
  lemma {:induction false} EntriesNeverChange(init: Dict, draws: seq<nat>, uuids: seq<string>, durations: seq<int>, m: nat, n: nat)
    requires m <= n <= |draws| && n <= |uuids| && n <= |durations|
    ensures var before, after := Run(init, draws, uuids, durations, m).store, Run(init, draws, uuids, durations, n).store;
      forall k :: k in before ==> k in after && after[k] == before[k]
  {
    if m < n {
      EntriesNeverChange(init, draws, uuids, durations, m, n - 1);
      var t0, t := Run(init, draws, uuids, durations, n - 1), Run(init, draws, uuids, durations, n);
      var k := NatToString(draws[n - 1]);
      assert t.store == if k in t0.store then t0.store else t0.store[k := uuids[n - 1]];
    }
  }

  /** `0 <= hits <= iterations`. */
  lemma {:induction false} HitsAtMostIterations(init: Dict, draws: seq<nat>, uuids: seq<string>, durations: seq<int>, n: nat)
    requires n <= |draws| && n <= |uuids| && n <= |durations|
    ensures Run(init, draws, uuids, durations, n).hits <= n
  {
    if n > 0 {
      HitsAtMostIterations(init, draws, uuids, durations, n - 1);
    }
  }

  /** Every iteration is a hit or a put, and every put adds a key: hits plus new keys is the iteration count. */
  lemma {:induction false} HitsPlusPuts(init: Dict, draws: seq<nat>, uuids: seq<string>, durations: seq<int>, n: nat)
    requires n <= |draws| && n <= |uuids| && n <= |durations|
    ensures var t := Run(init, draws, uuids, durations, n);
      t.hits + (|t.store| - |init|) == n
  {
    if n > 0 {
      HitsPlusPuts(init, draws, uuids, durations, n - 1);
    }
  }

  /** Iteration `j` misses exactly when its key was neither in the initial backend nor drawn before. */
  predicate Misses(init: Dict, draws: seq<nat>, j: nat)
    requires j < |draws|
  {
    NatToString(draws[j]) !in init && NatToString(draws[j]) !in KeysDrawn(draws, j)
  }

  lemma MissesIffAbsent(init: Dict, draws: seq<nat>, uuids: seq<string>, durations: seq<int>, j: nat)
    requires j < |draws| && j <= |uuids| && j <= |durations|
    ensures Misses(init, draws, j) <==> NatToString(draws[j]) !in Run(init, draws, uuids, durations, j).store
  {
    StoreKeys(init, draws, uuids, durations, j);
  }

  /** How many of the first `n` iterations miss. */
  function MissCount(init: Dict, draws: seq<nat>, n: nat): nat
    requires n <= |draws|
  {
    if n == 0 then 0 else MissCount(init, draws, n - 1) + if Misses(init, draws, n - 1) then 1 else 0
  }

  /** The sum of `len(k1) + len(v1)` over the first `n` iterations that miss. */
  function MissBytes(init: Dict, draws: seq<nat>, uuids: seq<string>, n: nat): nat
    requires n <= |draws| && n <= |uuids|
  {
    if n == 0 then 0
    else MissBytes(init, draws, uuids, n - 1)
         + if Misses(init, draws, n - 1) then |NatToString(draws[n - 1])| + |uuids[n - 1]| else 0
  }

  /** One iteration, read through `Misses`: a miss puts and counts its characters, anything else is a hit. */
  lemma StepByMisses(init: Dict, draws: seq<nat>, uuids: seq<string>, durations: seq<int>, n: nat)
    requires 0 < n <= |draws| && n <= |uuids| && n <= |durations|
    ensures var t0, t := Run(init, draws, uuids, durations, n - 1), Run(init, draws, uuids, durations, n);
      if Misses(init, draws, n - 1)
      then t.hits == t0.hits && t.bytesStored == t0.bytesStored + |NatToString(draws[n - 1])| + |uuids[n - 1]|
      else t.hits == t0.hits + 1 && t.bytesStored == t0.bytesStored
  {
    MissesIffAbsent(init, draws, uuids, durations, n - 1);
  }

  lemma {:induction false} HitsCountHits(init: Dict, draws: seq<nat>, uuids: seq<string>, durations: seq<int>, n: nat)
    requires n <= |draws| && n <= |uuids| && n <= |durations|
    ensures Run(init, draws, uuids, durations, n).hits == n - MissCount(init, draws, n)
  {
    if n > 0 {
      HitsCountHits(init, draws, uuids, durations, n - 1);
      StepByMisses(init, draws, uuids, durations, n);
    }
  }

  lemma {:induction false} BytesCountMisses(init: Dict, draws: seq<nat>, uuids: seq<string>, durations: seq<int>, n: nat)
    requires n <= |draws| && n <= |uuids| && n <= |durations|
    ensures Run(init, draws, uuids, durations, n).bytesStored == MissBytes(init, draws, uuids, n)
  {
    if n > 0 {
      BytesCountMisses(init, draws, uuids, durations, n - 1);
      StepByMisses(init, draws, uuids, durations, n);
    }
  }

  /**
   * `hits` counts the iterations whose key was already there and
   * `bytes_stored` sums `len(k1) + len(v1)` over exactly the others.
   */
  lemma CountersCountMisses(init: Dict, draws: seq<nat>, uuids: seq<string>, durations: seq<int>, n: nat)
    requires n <= |draws| && n <= |uuids| && n <= |durations|
    ensures var t := Run(init, draws, uuids, durations, n);
      t.hits == n - MissCount(init, draws, n) && t.bytesStored == MissBytes(init, draws, uuids, n)
  {
    HitsCountHits(init, draws, uuids, durations, n);
    BytesCountMisses(init, draws, uuids, durations, n);
  }

  /** Every key the loop adds is `str(x)` for some `x` in `[0, key_range]`, since `randint` draws from there. */
  lemma NewKeysInKeyRange(init: Dict, draws: seq<nat>, uuids: seq<string>, durations: seq<int>, n: nat, keyRange: int)
    requires n <= |draws| && n <= |uuids| && n <= |durations|
    requires forall j :: 0 <= j < |draws| ==> draws[j] <= keyRange
    ensures forall k :: k in Run(init, draws, uuids, durations, n).store && k !in init ==>
      exists x: nat :: x <= keyRange && k == NatToString(x)
  {
    StoreKeys(init, draws, uuids, durations, n);
    forall k | k in Run(init, draws, uuids, durations, n).store && k !in init
      ensures exists x: nat :: x <= keyRange && k == NatToString(x)
    {
      KeysDrawnMembers(draws, n, k);
      var j :| 0 <= j < n && k == NatToString(draws[j]);
      var x: nat := draws[j];
      assert x <= keyRange && k == NatToString(x);
    }
    assert forall k :: k in Run(init, draws, uuids, durations, n).store && k !in init ==>
      exists x: nat :: x <= keyRange && k == NatToString(x);
  }

  /** `m * c` as repeated addition, so that the induction below stays linear. */
  function Times(m: nat, c: nat): nat {
    if m == 0 then 0 else Times(m - 1, c) + c
  }

  lemma {:induction false} TimesIsProduct(m: nat, c: nat)
    ensures Times(m, c) == m * c
  {
    if m > 0 {
      TimesIsProduct(m - 1, c);
    }
  }

  /** Each put adds at most `c` when every iteration's `len(k1) + len(v1)` is at most `c`. */
  lemma {:induction false} BytesStoredBoundTimes(init: Dict, draws: seq<nat>, uuids: seq<string>, durations: seq<int>, n: nat, c: nat)
    requires n <= |draws| && n <= |uuids| && n <= |durations|
    requires forall j :: 0 <= j < n ==> |NatToString(draws[j])| + |uuids[j]| <= c
    ensures var t := Run(init, draws, uuids, durations, n);
      t.hits <= n && t.bytesStored <= Times(n - t.hits, c)
  {
    if n > 0 {
      BytesStoredBoundTimes(init, draws, uuids, durations, n - 1, c);
      StepByMisses(init, draws, uuids, durations, n);
      var t0, t := Run(init, draws, uuids, durations, n - 1), Run(init, draws, uuids, durations, n);
      if Misses(init, draws, n - 1) {
        assert Times(n - t.hits, c) == Times(n - 1 - t0.hits, c) + c;
      }
    }
  }

  /** With draws in `[0, key_range]` and 32-character values, `len(k1) + len(v1) <= len(str(key_range)) + 32`. */
  lemma IterationCap(draws: seq<nat>, uuids: seq<string>, n: nat, keyRange: nat)
    requires n <= |draws| && n <= |uuids|
    requires forall j :: 0 <= j < |draws| ==> draws[j] <= keyRange
    requires forall j :: 0 <= j < |uuids| ==> |uuids[j]| == 32
    ensures forall j :: 0 <= j < n ==> |NatToString(draws[j])| + |uuids[j]| <= |NatToString(keyRange)| + 32
  {
    forall j | 0 <= j < n
      ensures |NatToString(draws[j])| + |uuids[j]| <= |NatToString(keyRange)| + 32
    {
      NatToStringLengthMonotone(draws[j], keyRange);
    }
  }

  /**
   * With 32-character `uuid4().hex` values, each put adds at most
   * `len(str(key_range)) + 32` to `bytes_stored`.
   */
  lemma BytesStoredBound(init: Dict, draws: seq<nat>, uuids: seq<string>, durations: seq<int>, n: nat, keyRange: nat)
    requires n <= |draws| && n <= |uuids| && n <= |durations|
    requires forall j :: 0 <= j < |draws| ==> draws[j] <= keyRange
    requires forall j :: 0 <= j < |uuids| ==> |uuids[j]| == 32
    ensures var t := Run(init, draws, uuids, durations, n);
      t.bytesStored <= (n - t.hits) * (|NatToString(keyRange)| + 32)
  {
    var c := |NatToString(keyRange)| + 32;
    IterationCap(draws, uuids, n, keyRange);
    BytesStoredBoundTimes(init, draws, uuids, durations, n, c);
    var t := Run(init, draws, uuids, durations, n);
    var misses: nat := n - t.hits;
    TimesIsProduct(misses, c);
  }
}
