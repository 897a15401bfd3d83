/**
 * `Sharded.path_to_db`: the router from a key to the path of the shard file
 * that holds it. The MD5 hex digest is a parameter `md5`, applied to the
 * key's UTF-8 bytes as the source does; nothing about MD5 itself is modelled.
 */
module Sharding {
  import opened Utf8

  /** The `{'base_path': ..., 'levels': ...}` configuration of a sharded store. */
  datatype Config = Config(basePath: string, levels: int)

  predicate IsHexDigit(c: char) {
    '0' <= c <= '9' || 'a' <= c <= 'f'
  }

  /** What `hexdigest()` of an MD5 hash looks like: 32 lower-case hex digits. */
  predicate IsHexDigest(d: string) {
    |d| == 32 && forall i :: 0 <= i < |d| ==> IsHexDigit(d[i])
  }

  /** Where Python clamps a non-negative slice bound. */
  function Clamp(s: string, i: nat): (r: nat)
    ensures r <= |s|
  {
    if i < |s| then i else |s|
  }

  /** Python's `s[i:j]` for non-negative bounds: indices past the end are clamped. */
  function PySlice(s: string, i: nat, j: nat): (r: string)
    ensures |r| <= |s|
  {
    var lo, hi := Clamp(s, i), Clamp(s, j);
    if lo <= hi then s[lo..hi] else ""
  }

  /** `len(range(levels))`: zero for a negative count. */
  function SegmentCount(levels: int): nat {
    if levels > 0 then levels else 0
  }

  /** `[s[2*x:2*x+2] for x in range(n)]`. */
  function Segments(s: string, n: nat): (segs: seq<string>)
    ensures |segs| == n
  {
    if n == 0 then [] else Segments(s, n - 1) + [PySlice(s, 2 * (n - 1), 2 * n)]
  }

  /** Python's `sep.join(parts)`. */
  function Join(sep: string, parts: seq<string>): string {
    if parts == [] then ""
    else if |parts| == 1 then parts[0]
    else parts[0] + sep + Join(sep, parts[1..])
  }

  /** `Sharded.path_to_db(key)`. */
  function PathToDb(config: Config, md5: Bytes -> string, key: string): string {
    if config.levels == 0 then
      config.basePath + "/" + "single.dbm"
    else
      var s := md5(Encode(key));
      var parts := Join("/", Segments(s, SegmentCount(config.levels)));
      config.basePath + "/" + parts + "_dbm"
  }

  /** With zero levels every key lands in the one file `single.dbm`. */
  lemma SingleShardForEveryKey(config: Config, md5: Bytes -> string, k1: string, k2: string)
    requires config.levels == 0
    ensures PathToDb(config, md5, k1) == config.basePath + "/single.dbm"
    ensures PathToDb(config, md5, k1) == PathToDb(config, md5, k2)
  {
  }

  /**
   * The segments of a 32-digit digest: pair `x` of the digest for the first
   * sixteen levels, and the empty string (a slice past the end) beyond that.
   */
  lemma {:induction false} SegmentsOfDigest(d: string, n: nat)
    requires |d| == 32
    ensures forall x :: 0 <= x < n ==> Segments(d, n)[x] == if x < 16 then d[2 * x..2 * x + 2] else ""
  {
    if n > 0 {
      SegmentsOfDigest(d, n - 1);
    }
  }

  lemma FirstSlashAt(a: string, x: string)
    requires '/' !in a
    ensures (a + "/" + x)[|a|] == '/'
    ensures forall i :: 0 <= i < |a| ==> (a + "/" + x)[i] != '/'
  {
    assert forall i :: 0 <= i < |a| ==> (a + "/" + x)[i] == a[i];
  }

  lemma SplitAtFirstSlash(a: string, x: string, b: string, y: string)
    requires '/' !in a && '/' !in b
    requires a + "/" + x == b + "/" + y
    ensures a == b && x == y
  {
    var l, r := a + "/" + x, b + "/" + y;
    FirstSlashAt(a, x);
    FirstSlashAt(b, y);
    assert |a| == |b|;
    assert a == l[..|a|] && b == r[..|b|];
    assert x == l[|a| + 1..] && y == r[|b| + 1..];
  }

  /** Joining equally many slash-free parts with "/" loses nothing. */
  lemma {:induction false} JoinInjective(ps: seq<string>, qs: seq<string>)
    requires |ps| == |qs|
    requires forall i :: 0 <= i < |ps| ==> '/' !in ps[i]
    requires forall i :: 0 <= i < |qs| ==> '/' !in qs[i]
    requires Join("/", ps) == Join("/", qs)
    ensures ps == qs
  {
    if |ps| > 1 {
      SplitAtFirstSlash(ps[0], Join("/", ps[1..]), qs[0], Join("/", qs[1..]));
      JoinInjective(ps[1..], qs[1..]);
      assert ps == [ps[0]] + ps[1..] && qs == [qs[0]] + qs[1..];
    }
  }

  lemma PySliceConcat(s: string, i: nat, j: nat, k: nat)
    requires i <= j <= k
    ensures PySlice(s, i, j) + PySlice(s, j, k) == PySlice(s, i, k)
  {
    var a, b, c := Clamp(s, i), Clamp(s, j), Clamp(s, k);
    assert PySlice(s, i, j) == s[a..b] && PySlice(s, j, k) == s[b..c] && PySlice(s, i, k) == s[a..c];
    assert s[a..b] + s[b..c] == s[a..c];
  }

  lemma PySliceOfPrefix(s: string, i: nat, j: nat, k: nat)
    requires i <= j <= k
    ensures PySlice(PySlice(s, 0, k), i, j) == PySlice(s, i, j)
  {
    var h := Clamp(s, k);
    var p := PySlice(s, 0, k);
    assert p == s[..h] && |p| == h;
    var a, b := Clamp(s, i), Clamp(s, j);
    assert a <= b <= h;
    assert Clamp(p, i) == a;
    assert Clamp(p, j) == b;
    assert PySlice(p, i, j) == p[a..b];
    assert p[a..b] == s[a..b];
  }

  /** The segments of two digests agree exactly when their first `2 * n` characters do. */
  lemma {:induction false} SegmentsIffPrefix(d1: string, d2: string, n: nat)
    ensures Segments(d1, n) == Segments(d2, n) <==> PySlice(d1, 0, 2 * n) == PySlice(d2, 0, 2 * n)
  {
    if n > 0 {
      SegmentsIffPrefix(d1, d2, n - 1);
      var i, j := 2 * (n - 1), 2 * n;
      PySliceConcat(d1, 0, i, j);
      PySliceConcat(d2, 0, i, j);
      if PySlice(d1, 0, j) == PySlice(d2, 0, j) {
        PySliceOfPrefix(d1, 0, i, j);
        PySliceOfPrefix(d2, 0, i, j);
        PySliceOfPrefix(d1, i, j, j);
        PySliceOfPrefix(d2, i, j, j);
      }
      if Segments(d1, n) == Segments(d2, n) {
        assert Segments(d1, n - 1) == Segments(d1, n)[..n - 1];
        assert Segments(d2, n - 1) == Segments(d2, n)[..n - 1];
        assert Segments(d1, n)[n - 1] == PySlice(d1, i, j);
        assert Segments(d2, n)[n - 1] == PySlice(d2, i, j);
      }
    }
  }

  lemma {:induction false} SegmentsSlashFree(d: string, n: nat)
    requires '/' !in d
    ensures forall x :: 0 <= x < n ==> '/' !in Segments(d, n)[x]
  {
    if n > 0 {
      SegmentsSlashFree(d, n - 1);
      assert forall c :: c in PySlice(d, 2 * (n - 1), 2 * n) ==> c in d;
    }
  }

  lemma HexDigestSlashFree(d: string)
    requires IsHexDigest(d)
    ensures '/' !in d
  {
  }

  /**
   * With one level or more, two keys share a shard file exactly when the
   * first `2 * levels` hex digits of their digests agree (Python slicing
   * caps this at the 32 digits there are).
   */
  lemma SameShardIffSameDigestPrefix(config: Config, md5: Bytes -> string, k1: string, k2: string)
    requires config.levels != 0
    requires IsHexDigest(md5(Encode(k1))) && IsHexDigest(md5(Encode(k2)))
    ensures var d1, d2, n := md5(Encode(k1)), md5(Encode(k2)), SegmentCount(config.levels);
      PathToDb(config, md5, k1) == PathToDb(config, md5, k2) <==> PySlice(d1, 0, 2 * n) == PySlice(d2, 0, 2 * n)
  {
    var d1, d2, n := md5(Encode(k1)), md5(Encode(k2)), SegmentCount(config.levels);
    var j1, j2 := Join("/", Segments(d1, n)), Join("/", Segments(d2, n));
    var pre := config.basePath + "/";
    SegmentsIffPrefix(d1, d2, n);
    if PathToDb(config, md5, k1) == PathToDb(config, md5, k2) {
      var p1, p2 := pre + j1 + "_dbm", pre + j2 + "_dbm";
      assert j1 == p1[|pre|..|p1| - 4];
      assert j2 == p2[|pre|..|p2| - 4];
      HexDigestSlashFree(d1);
      HexDigestSlashFree(d2);
      SegmentsSlashFree(d1, n);
      SegmentsSlashFree(d2, n);
      JoinInjective(Segments(d1, n), Segments(d2, n));
    }
  }
}
