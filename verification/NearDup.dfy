/**
 Near-duplicate search: four-band multi-index hashing, and the connected components of
 the pairs it finds (src/core/dedup.rs, src/core/phash.rs).

 A perceptual hash is its 64 bits, most significant first.
 */
module NearDup {
  import opened Order

  type Hash64 = h: seq<bool> | |h| == 64 witness seq(64, _ => false)

  const MAX_THRESHOLD := 3

  // ----- Hamming distance and bands

  function CountDiff(a: seq<bool>, b: seq<bool>): (n: nat)
    requires |a| == |b|
  {
    if |a| == 0 then 0 else (if a[0] != b[0] then 1 else 0) + CountDiff(a[1..], b[1..])
  }

  function Hamming(a: Hash64, b: Hash64): nat {
    CountDiff(a, b)
  }

  function Band(h: Hash64, band: nat): seq<bool>
    requires band < 4
  {
    h[16 * band..16 * band + 16]
  }

  lemma {:induction false} CountDiffSplit(a: seq<bool>, b: seq<bool>, k: nat)
    requires |a| == |b| && k <= |a|
    ensures CountDiff(a, b) == CountDiff(a[..k], b[..k]) + CountDiff(a[k..], b[k..])
  {
    if k == 0 {
      assert a[0..] == a && b[0..] == b;
    } else {
      CountDiffSplit(a[1..], b[1..], k - 1);
      assert a[1..][..k - 1] == a[..k][1..] && b[1..][..k - 1] == b[..k][1..];
      assert a[1..][k - 1..] == a[k..] && b[1..][k - 1..] == b[k..];
    }
  }

  lemma {:induction false} CountDiffZero(a: seq<bool>, b: seq<bool>)
    requires |a| == |b|
    ensures CountDiff(a, b) == 0 <==> a == b
  {
    if |a| > 0 {
      CountDiffZero(a[1..], b[1..]);
      assert a == [a[0]] + a[1..] && b == [b[0]] + b[1..];
    }
  }

  // The distance is the sum of the distances of the four bands.
  lemma HammingByBands(a: Hash64, b: Hash64)
    ensures Hamming(a, b) == CountDiff(Band(a, 0), Band(b, 0)) + CountDiff(Band(a, 1), Band(b, 1))
                           + CountDiff(Band(a, 2), Band(b, 2)) + CountDiff(Band(a, 3), Band(b, 3))
  {
    CountDiffSplit(a, b, 16);
    CountDiffSplit(a[16..], b[16..], 16);
    CountDiffSplit(a[16..][16..], b[16..][16..], 16);
    assert a[16..][..16] == Band(a, 1) && b[16..][..16] == Band(b, 1);
    assert a[16..][16..][..16] == Band(a, 2) && b[16..][16..][..16] == Band(b, 2);
    assert a[16..][16..][16..] == Band(a, 3) && b[16..][16..][16..] == Band(b, 3);
  }

  // Three differing bits cannot touch four bands.
  lemma Pigeonhole(a: Hash64, b: Hash64)
    requires Hamming(a, b) <= MAX_THRESHOLD
    ensures exists band: nat :: band < 4 && Band(a, band) == Band(b, band)
  {
    HammingByBands(a, b);
    CountDiffZero(Band(a, 0), Band(b, 0));
    CountDiffZero(Band(a, 1), Band(b, 1));
    CountDiffZero(Band(a, 2), Band(b, 2));
    CountDiffZero(Band(a, 3), Band(b, 3));
  }

  // ----- buckets

  function Bands(hashes: seq<Hash64>, band: nat): seq<seq<bool>>
    requires band < 4
  {
    seq(|hashes|, i requires 0 <= i < |hashes| => Band(hashes[i], band))
  }

  ghost function FullBucket(hashes: seq<Hash64>, band: nat, v: seq<bool>): seq<nat>
    requires band < 4
  {
    IndicesOf(Bands(hashes, band), v, |hashes|)
  }

  lemma BucketMembers(hashes: seq<Hash64>, band: nat, v: seq<bool>)
    requires band < 4
    ensures Ascending(FullBucket(hashes, band, v))
    ensures forall i: nat :: i in FullBucket(hashes, band, v) <==> i < |hashes| && Band(hashes[i], band) == v
  {
    IndicesOfMembers(Bands(hashes, band), v, |hashes|);
  }

  ghost predicate OverCap(hashes: seq<Hash64>, cap: nat, band: nat, v: seq<bool>)
    requires band < 4
  {
    |FullBucket(hashes, band, v)| >= 2 && |FullBucket(hashes, band, v)| > cap
  }

  ghost function BandValues(hashes: seq<Hash64>, band: nat): set<seq<bool>>
    requires band < 4
  {
    set i | 0 <= i < |hashes| :: Band(hashes[i], band)
  }

  ghost function SkippedIn(hashes: seq<Hash64>, cap: nat, band: nat): set<seq<bool>>
    requires band < 4
  {
    set v | v in BandValues(hashes, band) && OverCap(hashes, cap, band, v)
  }

  ghost function SkippedBuckets(hashes: seq<Hash64>, cap: nat, bands: nat): nat
    requires bands <= 4
  {
    if bands == 0 then 0 else SkippedBuckets(hashes, cap, bands - 1) + |SkippedIn(hashes, cap, bands - 1)|
  }

  // ----- what the scan finds

  ghost predicate Close(hashes: seq<Hash64>, threshold: nat, a: nat, b: nat) {
    a < b < |hashes| && Hamming(hashes[a], hashes[b]) <= threshold
  }

  // a and b agree on the band and their bucket there is scanned.
  ghost predicate MeetIn(hashes: seq<Hash64>, cap: nat, band: nat, a: nat, b: nat)
    requires a < |hashes| && b < |hashes|
  {
    band < 4 && Band(hashes[a], band) == Band(hashes[b], band)
    && !OverCap(hashes, cap, band, Band(hashes[a], band))
  }

  ghost predicate Found(hashes: seq<Hash64>, threshold: nat, cap: nat, bands: nat, a: nat, b: nat) {
    Close(hashes, threshold, a, b) && exists band: nat :: band < bands && MeetIn(hashes, cap, band, a, b)
  }

  // All pairs of one bucket, first to last, that are close and were not seen before.
  method ScanBucket(hashes: seq<Hash64>, threshold: nat, bucket: seq<nat>,
                    pairs0: seq<(nat, nat)>, seen0: set<(nat, nat)>)
    returns (pairs: seq<(nat, nat)>, seen: set<(nat, nat)>)
    requires Ascending(bucket) && forall i :: i in bucket ==> i < |hashes|
    requires Distinct(pairs0) && forall p :: p in pairs0 <==> p in seen0
    ensures Distinct(pairs) && forall p :: p in pairs <==> p in seen
    ensures forall a: nat, b: nat :: (a, b) in seen <==>
              ((a, b) in seen0 || (a in bucket && b in bucket && Close(hashes, threshold, a, b)))
  {
    pairs, seen := pairs0, seen0;
    for x := 0 to |bucket|
      invariant Distinct(pairs) && forall p :: p in pairs <==> p in seen
      invariant forall a: nat, b: nat :: (a, b) in seen <==>
                  ((a, b) in seen0 || (a in bucket[..x] && b in bucket && Close(hashes, threshold, a, b)))
    {
      var a := bucket[x];
      assert a in bucket;
      ghost var before := seen;
      for y := x + 1 to |bucket|
        invariant Distinct(pairs) && forall p :: p in pairs <==> p in seen
        invariant forall a': nat, b': nat :: (a', b') in seen <==>
                    ((a', b') in before || (a' == a && b' in bucket[x + 1..y] && Close(hashes, threshold, a', b')))
      {
        var b := bucket[y];
        assert b in bucket && a < b;
        assert bucket[x + 1..y + 1] == bucket[x + 1..y] + [b];
        if Hamming(hashes[a], hashes[b]) <= threshold && (a, b) !in seen {
          seen := seen + {(a, b)};
          pairs := pairs + [(a, b)];
        }
      }
      assert bucket[x + 1..|bucket|] == bucket[x + 1..];
      assert bucket[..x + 1] == bucket[..x] + [a];
      assert forall b :: b in bucket && a < b ==> b in bucket[x + 1..];
    }
    assert bucket[..|bucket|] == bucket;
  }

  // `seen` is `seen0` and the pairs found through the buckets of the values vs of one band.
  ghost predicate Extends(hashes: seq<Hash64>, threshold: nat, cap: nat, band: nat, vs: set<seq<bool>>,
                          seen0: set<(nat, nat)>, seen: set<(nat, nat)>)
  {
    forall a: nat, b: nat :: (a, b) in seen <==>
      ((a, b) in seen0 || (Close(hashes, threshold, a, b) && MeetIn(hashes, cap, band, a, b) && Band(hashes[a], band) in vs))
  }

  ghost predicate Lists(pairs: seq<(nat, nat)>, seen: set<(nat, nat)>) {
    Distinct(pairs) && forall p :: p in pairs <==> p in seen
  }

  method ScanIfAllowed(hashes: seq<Hash64>, threshold: nat, cap: nat, band: nat, v: seq<bool>, bucket: seq<nat>,
                       pairs0: seq<(nat, nat)>, seen0: set<(nat, nat)>)
    returns (pairs: seq<(nat, nat)>, seen: set<(nat, nat)>, over: bool)
    requires band < 4 && bucket == FullBucket(hashes, band, v) && v in BandValues(hashes, band)
    requires Lists(pairs0, seen0)
    ensures Lists(pairs, seen) && Extends(hashes, threshold, cap, band, {v}, seen0, seen)
    ensures over <==> v in SkippedIn(hashes, cap, band)
  {
    pairs, seen := pairs0, seen0;
    over := |bucket| >= 2 && |bucket| > cap;
    BucketMembers(hashes, band, v);
    if |bucket| >= 2 && !over {
      pairs, seen := ScanBucket(hashes, threshold, bucket, pairs, seen);
    } else if |bucket| < 2 {
      forall a: nat, b: nat | a in bucket && b in bucket ensures a == b {
        var x :| 0 <= x < |bucket| && bucket[x] == a;
        var y :| 0 <= y < |bucket| && bucket[y] == b;
      }
    }
  }

  // Buckets are visited in no particular order; the result does not depend on it.
  method BandBuckets(hashes: seq<Hash64>, band: nat) returns (buckets: map<seq<bool>, seq<nat>>)
    requires band < 4
    ensures buckets.Keys == BandValues(hashes, band)
    ensures forall v :: v in buckets ==> buckets[v] == FullBucket(hashes, band, v)
  {
    hide Band, BandValues;
    buckets := GroupIndices(Bands(hashes, band));
    BandValuesAreBands(hashes, band);
  }

  method ScanBand(hashes: seq<Hash64>, threshold: nat, cap: nat, band: nat,
                  pairs0: seq<(nat, nat)>, seen0: set<(nat, nat)>)
    returns (pairs: seq<(nat, nat)>, seen: set<(nat, nat)>, skipped: nat)
    requires band < 4 && Lists(pairs0, seen0)
    ensures Lists(pairs, seen) && Extends(hashes, threshold, cap, band, BandValues(hashes, band), seen0, seen)
    ensures skipped == |SkippedIn(hashes, cap, band)|
  {
    hide *;
    pairs, seen, skipped := pairs0, seen0, 0;
    var buckets := BandBuckets(hashes, band);
    var todo := buckets.Keys;
    ghost var done: set<seq<bool>> := {};
    ghost var skip := SkippedIn(hashes, cap, band);
    ExtendsNone(hashes, threshold, cap, band, seen0);
    while todo != {}
      invariant todo + done == BandValues(hashes, band) && todo !! done
      invariant Lists(pairs, seen) && Extends(hashes, threshold, cap, band, done, seen0, seen)
      invariant skipped == |done * skip|
    {
      var v :| v in todo;
      MoveOver(todo, done, v);
      todo := todo - {v};
      var over;
      ghost var before := seen;
      pairs, seen, over := ScanIfAllowed(hashes, threshold, cap, band, v, buckets[v], pairs, seen);
      ExtendsMore(hashes, threshold, cap, band, done, v, seen0, before, seen);
      CountOneMore(done, v, skip);
      skipped := skipped + (if over then 1 else 0);
      done := done + {v};
    }
    SkippedAreValues(hashes, cap, band);
    assert done * skip == skip;
  }

  lemma MoveOver<T>(todo: set<T>, done: set<T>, v: T)
    requires todo !! done && v in todo
    ensures v in todo + done && v !in done
    ensures (todo - {v}) + (done + {v}) == todo + done && (todo - {v}) !! (done + {v})
  {
  }

  lemma CountOneMore<T>(done: set<T>, v: T, skip: set<T>)
    requires v !in done
    ensures |(done + {v}) * skip| == |done * skip| + (if v in skip then 1 else 0)
  {
    assert (done + {v}) * skip == done * skip + (if v in skip then {v} else {});
  }

  lemma BandValuesAreBands(hashes: seq<Hash64>, band: nat)
    requires band < 4
    ensures forall v :: v in BandValues(hashes, band) <==> v in Bands(hashes, band)
  {
    forall v ensures v in BandValues(hashes, band) <==> v in Bands(hashes, band) {
      if v in BandValues(hashes, band) {
        var i :| 0 <= i < |hashes| && Band(hashes[i], band) == v;
        assert Bands(hashes, band)[i] == v;
      }
    }
  }

  lemma SkippedAreValues(hashes: seq<Hash64>, cap: nat, band: nat)
    requires band < 4
    ensures SkippedIn(hashes, cap, band) <= BandValues(hashes, band)
  {
  }

  lemma ExtendsNone(hashes: seq<Hash64>, threshold: nat, cap: nat, band: nat, seen: set<(nat, nat)>)
    ensures Extends(hashes, threshold, cap, band, {}, seen, seen)
  {
  }

  lemma ExtendsMore(hashes: seq<Hash64>, threshold: nat, cap: nat, band: nat, vs: set<seq<bool>>, v: seq<bool>,
                    seen0: set<(nat, nat)>, seen1: set<(nat, nat)>, seen2: set<(nat, nat)>)
    requires Extends(hashes, threshold, cap, band, vs, seen0, seen1)
    requires Extends(hashes, threshold, cap, band, {v}, seen1, seen2)
    ensures Extends(hashes, threshold, cap, band, vs + {v}, seen0, seen2)
  {
  }

  method MihPairs(hashes: seq<Hash64>, threshold: nat, cap: nat)
    returns (pairs: seq<(nat, nat)>, skipped: nat)
    ensures Distinct(pairs)
    ensures forall a: nat, b: nat :: (a, b) in pairs <==> Found(hashes, threshold, cap, 4, a, b)
    ensures skipped == SkippedBuckets(hashes, cap, 4)
  {
    pairs, skipped := [], 0;
    var seen: set<(nat, nat)> := {};
    for band := 0 to 4
      invariant Lists(pairs, seen)
      invariant forall a: nat, b: nat :: (a, b) in seen <==> Found(hashes, threshold, cap, band, a, b)
      invariant skipped == SkippedBuckets(hashes, cap, band)
    {
      var n;
      ghost var before := seen;
      pairs, seen, n := ScanBand(hashes, threshold, cap, band, pairs, seen);
      skipped := skipped + n;
      forall a: nat, b: nat ensures (a, b) in seen <==> Found(hashes, threshold, cap, band + 1, a, b) {
        if Close(hashes, threshold, a, b) { assert Band(hashes[a], band) in BandValues(hashes, band); }
        if (a, b) in seen && (a, b) !in before { assert MeetIn(hashes, cap, band, a, b); }
      }
    }
  }

  // ----- recall

  // With no bucket skipped, the scan finds every close pair: the four-band search loses nothing.
  lemma FullRecall(hashes: seq<Hash64>, threshold: nat, cap: nat, a: nat, b: nat)
    requires threshold <= MAX_THRESHOLD
    requires SkippedBuckets(hashes, cap, 4) == 0
    ensures Found(hashes, threshold, cap, 4, a, b) <==> Close(hashes, threshold, a, b)
  {
    if Close(hashes, threshold, a, b) {
      MissedOnlyBySkipping(hashes, threshold, cap, a, b);
      if !Found(hashes, threshold, cap, 4, a, b) {
        Pigeonhole(hashes[a], hashes[b]);
        var band: nat :| band < 4 && Band(hashes[a], band) == Band(hashes[b], band);
        assert Band(hashes[a], band) in SkippedIn(hashes, cap, band);
        SkippedCounts(hashes, cap, band, 4);
      }
    }
  }

  lemma {:induction false} SkippedCounts(hashes: seq<Hash64>, cap: nat, band: nat, bands: nat)
    requires band < bands <= 4
    ensures SkippedBuckets(hashes, cap, bands) >= |SkippedIn(hashes, cap, band)|
  {
    if band < bands - 1 { SkippedCounts(hashes, cap, band, bands - 1); }
  }

  // A close pair is missing exactly when every band on which it agrees was skipped, and
  // there is at least one such band.
  lemma MissedOnlyBySkipping(hashes: seq<Hash64>, threshold: nat, cap: nat, a: nat, b: nat)
    requires threshold <= MAX_THRESHOLD && Close(hashes, threshold, a, b)
    ensures !Found(hashes, threshold, cap, 4, a, b) <==>
              forall band: nat :: band < 4 && Band(hashes[a], band) == Band(hashes[b], band)
                ==> OverCap(hashes, cap, band, Band(hashes[a], band))
    ensures exists band: nat :: band < 4 && Band(hashes[a], band) == Band(hashes[b], band)
  {
    Pigeonhole(hashes[a], hashes[b]);
    if !Found(hashes, threshold, cap, 4, a, b) {
      forall band: nat | band < 4 && Band(hashes[a], band) == Band(hashes[b], band)
        ensures OverCap(hashes, cap, band, Band(hashes[a], band))
      {
        assert !MeetIn(hashes, cap, band, a, b);
      }
    }
  }

  // At distance 4 one bit per band defeats the search: the threshold cap is tight.
  lemma RecallFailsAtFour()
    ensures exists a: Hash64, b: Hash64 :: Hamming(a, b) == 4 && !Found([a, b], 4, 10000, 4, 0, 1)
  {
    var a: Hash64 := seq(64, _ => false);
    var b: Hash64 := seq(64, i => i % 16 == 0);
    forall band: nat | band < 4
      ensures Band(a, band) != Band(b, band) && CountDiff(Band(a, band), Band(b, band)) == 1
    {
      var p, q := Band(a, band), Band(b, band);
      assert p[0] != q[0];
      assert p[1..] == q[1..] by {
        forall k | 0 <= k < 15 ensures p[1..][k] == q[1..][k] {
          assert (16 * band + k + 1) % 16 == k + 1;
        }
      }
      CountDiffZero(p[1..], q[1..]);
    }
    HammingByBands(a, b);
    assert Hamming(a, b) == 4 && !Found([a, b], 4, 10000, 4, 0, 1);
  }

  // ----- union-find

  // A parent array `p` whose every element has the given root. `level` strictly rises along
  // the links, so unranked links cannot form a cycle.
  ghost predicate Forest(p: seq<nat>, repr: seq<nat>, level: seq<nat>, height: nat) {
    && |repr| == |level| == |p|
    && (forall i :: 0 <= i < |p| ==> p[i] < |p| && repr[i] < |p| && level[i] <= height)
    && (forall i {:trigger repr[p[i]]} :: 0 <= i < |p| ==> repr[p[i]] == repr[i])
    && (forall i {:trigger p[repr[i]]} :: 0 <= i < |p| ==> p[repr[i]] == repr[i])
    && (forall i :: 0 <= i < |p| && p[i] == i ==> repr[i] == i)
    && (forall i {:trigger level[p[i]]} :: 0 <= i < |p| && p[i] != i ==> level[i] < level[p[i]])
  }

  lemma HalvingKeepsRoots(p: seq<nat>, repr: seq<nat>, level: seq<nat>, height: nat, x: nat)
    requires Forest(p, repr, level, height) && x < |p| && p[x] != x
    ensures Forest(p[x := p[p[x]]], repr, level, height)
    ensures repr[p[p[x]]] == repr[x] && level[x] < level[p[p[x]]] <= height
  {
    assert repr[p[p[x]]] == repr[p[x]];
    assert p[p[x]] != p[x] ==> level[p[x]] < level[p[p[x]]];
    assert repr[x] != x;
  }

  // Class ra is absorbed by class rb.
  ghost function Merged(repr: seq<nat>, ra: nat, rb: nat): (r: seq<nat>)
    ensures |r| == |repr|
  {
    seq(|repr|, i requires 0 <= i < |repr| => if repr[i] == ra then rb else repr[i])
  }

  ghost function Lifted(repr: seq<nat>, level: seq<nat>, rb: nat, step: nat): (r: seq<nat>)
    requires |repr| == |level|
    ensures |r| == |level|
  {
    seq(|level|, i requires 0 <= i < |level| => if repr[i] == rb then level[i] + step else level[i])
  }

  lemma LinkingMerges(p: seq<nat>, repr: seq<nat>, level: seq<nat>, height: nat, ra: nat, rb: nat)
    requires Forest(p, repr, level, height) && ra < |p| && rb < |p| && ra != rb
    requires p[ra] == ra && p[rb] == rb
    ensures Forest(p[ra := rb], Merged(repr, ra, rb), Lifted(repr, level, rb, height + 1), 2 * height + 1)
  {
    var q, repr', level' := p[ra := rb], Merged(repr, ra, rb), Lifted(repr, level, rb, height + 1);
    assert repr[ra] == ra && repr[rb] == rb;
    forall i | 0 <= i < |p|
      ensures repr'[q[i]] == repr'[i] && q[repr'[i]] == repr'[i]
      ensures q[i] != i ==> level'[i] < level'[q[i]]
    {
      assert repr[p[i]] == repr[i] && p[repr[i]] == repr[i];
    }
  }

  class UnionFind {
    var parent: array<nat>
    ghost var repr: seq<nat>
    ghost var level: seq<nat>
    ghost var height: nat

    ghost predicate Valid()
      reads this, parent
    {
      Forest(parent[..], repr, level, height)
    }

    constructor (n: nat)
      ensures Valid() && fresh(parent) && parent.Length == n && repr == seq(n, i => i)
    {
      parent := new nat[n](i => i);
      repr := seq(n, i => i);
      level := seq(n, _ => 0);
      height := 0;
    }

    // Path halving never changes any element's root.
    method Find(start: nat) returns (x: nat)
      requires Valid() && start < parent.Length
      modifies parent
      ensures Valid()
      ensures x == repr[start] && parent[x] == x
    {
      x := start;
      while parent[x] != x
        invariant Valid() && x < parent.Length && repr[x] == repr[start]
        decreases height - level[x]
      {
        ghost var p := parent[..];
        HalvingKeepsRoots(p, repr, level, height, x);
        parent[x] := parent[parent[x]];
        assert parent[..] == p[x := p[p[x]]];
        x := parent[x];
      }
    }

    method Union(a: nat, b: nat)
      requires Valid() && a < parent.Length && b < parent.Length
      modifies this`repr, this`level, this`height, parent
      ensures Valid() && repr == Merged(old(repr), old(repr[a]), old(repr[b]))
    {
      var ra := Find(a);
      var rb := Find(b);
      if ra != rb {
        ghost var p := parent[..];
        LinkingMerges(p, repr, level, height, ra, rb);
        assert p[ra] == ra by { assert p[repr[a]] == repr[a]; }
        parent[ra] := rb;
        assert parent[..] == p[ra := rb];
        level := Lifted(repr, level, rb, height + 1);
        height := 2 * height + 1;
        repr := Merged(repr, ra, rb);
      } else {
        assert repr == Merged(repr, ra, rb);
      }
    }
  }

  // ----- connected components

  ghost predicate Joined(edges: set<(nat, nat)>, a: nat, b: nat) {
    (a, b) in edges || (b, a) in edges
  }

  ghost predicate Walk(edges: set<(nat, nat)>, w: seq<nat>) {
    |w| > 0 && forall i :: 0 <= i < |w| - 1 ==> Joined(edges, w[i], w[i + 1])
  }

  ghost predicate WalkFromTo(edges: set<(nat, nat)>, w: seq<nat>, a: nat, b: nat) {
    Walk(edges, w) && w[0] == a && w[|w| - 1] == b
  }

  // Reflexive, symmetric, transitive closure of the edges.
  ghost predicate Connected(edges: set<(nat, nat)>, a: nat, b: nat) {
    exists w: seq<nat> :: WalkFromTo(edges, w, a, b)
  }

  lemma ConnectedReflexive(edges: set<(nat, nat)>, a: nat)
    ensures Connected(edges, a, a)
  {
    assert WalkFromTo(edges, [a], a, a);
  }

  lemma ConnectedByEdge(edges: set<(nat, nat)>, a: nat, b: nat)
    requires Joined(edges, a, b)
    ensures Connected(edges, a, b)
  {
    assert WalkFromTo(edges, [a, b], a, b);
  }

  lemma ConnectedSymmetric(edges: set<(nat, nat)>, a: nat, b: nat)
    requires Connected(edges, a, b)
    ensures Connected(edges, b, a)
  {
    var w :| WalkFromTo(edges, w, a, b);
    var back := seq(|w|, i requires 0 <= i < |w| => w[|w| - 1 - i]);
    forall i | 0 <= i < |back| - 1 ensures Joined(edges, back[i], back[i + 1]) {
      assert Joined(edges, w[|w| - 2 - i], w[|w| - 2 - i + 1]);
    }
    assert WalkFromTo(edges, back, b, a);
  }

  lemma ConnectedTransitive(edges: set<(nat, nat)>, a: nat, b: nat, c: nat)
    requires Connected(edges, a, b) && Connected(edges, b, c)
    ensures Connected(edges, a, c)
  {
    var v :| WalkFromTo(edges, v, a, b);
    var w :| WalkFromTo(edges, w, b, c);
    var both := v + w[1..];
    forall i | 0 <= i < |both| - 1 ensures Joined(edges, both[i], both[i + 1]) {
      if i >= |v| - 1 { assert Joined(edges, w[i - |v| + 1], w[i - |v| + 2]); }
    }
    assert WalkFromTo(edges, both, a, c);
  }

  lemma ConnectedGrows(edges: set<(nat, nat)>, more: set<(nat, nat)>, a: nat, b: nat)
    requires Connected(edges, a, b) && edges <= more
    ensures Connected(more, a, b)
  {
    var w :| WalkFromTo(edges, w, a, b);
    forall i | 0 <= i < |w| - 1 ensures Joined(more, w[i], w[i + 1]) {
      assert Joined(edges, w[i], w[i + 1]);
    }
    assert WalkFromTo(more, w, a, b);
  }

  ghost predicate EdgesWithin(edges: set<(nat, nat)>, n: nat) {
    forall e :: e in edges ==> e.0 < n && e.1 < n
  }

  // A labelling constant along edges is constant along walks.
  lemma {:induction false} WalkKeepsLabel(edges: set<(nat, nat)>, repr: seq<nat>, w: seq<nat>)
    requires EdgesWithin(edges, |repr|) && forall e :: e in edges ==> repr[e.0] == repr[e.1]
    requires Walk(edges, w) && w[0] < |repr|
    ensures w[|w| - 1] < |repr| && repr[w[|w| - 1]] == repr[w[0]]
  {
    if |w| > 1 {
      assert Joined(edges, w[0], w[1]);
      forall i | 0 <= i < |w[1..]| - 1 ensures Joined(edges, w[1..][i], w[1..][i + 1]) {
        assert Joined(edges, w[i + 1], w[i + 1 + 1]);
      }
      WalkKeepsLabel(edges, repr, w[1..]);
    }
  }

  // Equal roots exactly for connected elements.
  ghost predicate RootsMatch(repr: seq<nat>, edges: set<(nat, nat)>) {
    EdgesWithin(edges, |repr|) &&
    forall a: nat, b: nat :: a < |repr| && b < |repr| ==> (repr[a] == repr[b] <==> Connected(edges, a, b))
  }

  lemma RootsMatchInitially(n: nat)
    ensures RootsMatch(seq(n, i => i), {})
  {
    var repr := seq(n, i => i);
    forall a: nat, b: nat | a < n && b < n ensures repr[a] == repr[b] <==> Connected({}, a, b) {
      ConnectedReflexive({}, a);
      if Connected({}, a, b) {
        var w :| WalkFromTo({}, w, a, b);
        WalkKeepsLabel({}, repr, w);
      }
    }
  }

  lemma MergingMatches(repr: seq<nat>, edges: set<(nat, nat)>, x: nat, y: nat)
    requires RootsMatch(repr, edges) && x < |repr| && y < |repr|
    ensures RootsMatch(Merged(repr, repr[x], repr[y]), edges + {(x, y)})
  {
    var repr', edges' := Merged(repr, repr[x], repr[y]), edges + {(x, y)};
    forall e | e in edges' ensures repr'[e.0] == repr'[e.1] {
      if e in edges { ConnectedByEdge(edges, e.0, e.1); }
    }
    ConnectedByEdge(edges', x, y);
    forall a: nat, b: nat | a < |repr| && b < |repr| ensures repr'[a] == repr'[b] <==> Connected(edges', a, b) {
      if repr'[a] == repr'[b] {
        if repr[a] == repr[b] {
          ConnectedGrows(edges, edges', a, b);
        } else if repr[a] == repr[x] {
          ThroughNewEdge(repr, edges, x, y, a, b);
        } else {
          ThroughNewEdge(repr, edges, x, y, b, a);
          ConnectedSymmetric(edges', b, a);
        }
      }
      if Connected(edges', a, b) {
        var w :| WalkFromTo(edges', w, a, b);
        WalkKeepsLabel(edges', repr', w);
      }
    }
  }

  lemma ThroughNewEdge(repr: seq<nat>, edges: set<(nat, nat)>, x: nat, y: nat, a: nat, b: nat)
    requires RootsMatch(repr, edges) && x < |repr| && y < |repr| && a < |repr| && b < |repr|
    requires repr[a] == repr[x] && repr[b] == repr[y]
    ensures Connected(edges + {(x, y)}, a, b)
  {
    var edges' := edges + {(x, y)};
    ConnectedGrows(edges, edges', a, x);
    ConnectedByEdge(edges', x, y);
    ConnectedGrows(edges, edges', y, b);
    ConnectedTransitive(edges', a, x, y);
    ConnectedTransitive(edges', a, y, b);
  }

  function ComponentKey(c: seq<nat>): Key {
    Key(0, 0, c, 0, 0)
  }

  // Each class of two or more connected elements, once, ascending; and nothing else.
  ghost predicate IsComponents(components: seq<seq<nat>>, n: nat, edges: set<(nat, nat)>) {
    && StrictlySortedBy(components, ComponentKey)
    && (forall c :: c in components ==> IsClass(c, n, edges))
    && (forall x: nat, y: nat :: x < n && y < n && x != y && Connected(edges, x, y) ==> exists c :: c in components && x in c)
  }

  ghost predicate IsClass(c: seq<nat>, n: nat, edges: set<(nat, nat)>) {
    && |c| >= 2 && Ascending(c)
    && (forall x :: x in c ==> x < n)
    && (forall x: nat, y: nat :: x in c && y < n ==> (y in c <==> Connected(edges, x, y)))
  }

  // Components are listed by their least elements.
  lemma ComponentsAscend(components: seq<seq<nat>>, n: nat, edges: set<(nat, nat)>, x: nat, y: nat)
    requires IsComponents(components, n, edges) && x < y < |components|
    ensures components[x] != [] && components[y] != [] && components[x][0] < components[y][0]
  {
    var c, d := components[x], components[y];
    assert c in components && d in components;
    assert KeyLt(ComponentKey(c), ComponentKey(d));
    if c[0] == d[0] {
      assert c[0] in c && d[0] in d;
      assert forall z: nat :: z in c <==> z in d;
      AscendingUnique(c, d);
    }
  }

  // The components are determined by the edges: no iteration order can show in them.
  lemma ComponentsUnique(s: seq<seq<nat>>, t: seq<seq<nat>>, n: nat, edges: set<(nat, nat)>)
    requires IsComponents(s, n, edges) && IsComponents(t, n, edges)
    ensures s == t
  {
    ComponentsSubset(s, t, n, edges);
    ComponentsSubset(t, s, n, edges);
    StrictUnique(s, t, ComponentKey);
  }

  lemma ComponentsSubset(s: seq<seq<nat>>, t: seq<seq<nat>>, n: nat, edges: set<(nat, nat)>)
    requires IsComponents(s, n, edges) && IsComponents(t, n, edges)
    ensures forall c :: c in s ==> c in t
  {
    forall c | c in s ensures c in t {
      assert IsClass(c, n, edges);
      var x, y := c[0], c[1];
      assert x in c && y in c && x < n && y < n && Connected(edges, x, y);
      var d :| d in t && x in d;
      assert IsClass(d, n, edges);
      assert forall z: nat :: z in c <==> z in d;
      AscendingUnique(c, d);
    }
  }

  ghost function FoundSet(hashes: seq<Hash64>, threshold: nat, cap: nat): set<(nat, nat)> {
    set a: nat, b: nat | 0 <= a < |hashes| && 0 <= b < |hashes| && Found(hashes, threshold, cap, 4, a, b) :: (a, b)
  }

  method Roots(uf: UnionFind) returns (roots: seq<nat>)
    requires uf.Valid()
    modifies uf.parent
    ensures uf.Valid() && roots == uf.repr
  {
    roots := [];
    for i := 0 to uf.parent.Length
      invariant uf.Valid() && roots == uf.repr[..i]
    {
      var r := uf.Find(i);
      roots := roots + [r];
    }
  }

  method NearComponents(hashes: seq<Hash64>, threshold: nat, cap: nat)
    returns (components: seq<seq<nat>>, skipped: nat)
    ensures IsComponents(components, |hashes|, FoundSet(hashes, threshold, cap))
    ensures skipped == SkippedBuckets(hashes, cap, 4)
  {
    var n := |hashes|;
    var pairs;
    pairs, skipped := MihPairs(hashes, threshold, cap);
    ghost var edges := FoundSet(hashes, threshold, cap);
    forall p: (nat, nat) ensures p in pairs <==> p in edges {
      assert p == (p.0, p.1);
      assert (p.0, p.1) in pairs <==> Found(hashes, threshold, cap, 4, p.0, p.1);
    }
    var uf := new UnionFind(n);
    RootsMatchInitially(n);
    ghost var joined: set<(nat, nat)> := {};
    for k := 0 to |pairs|
      invariant uf.Valid() && |uf.repr| == n && fresh(uf) && fresh(uf.parent)
      invariant joined == set j | 0 <= j < k :: pairs[j]
      invariant RootsMatch(uf.repr, joined)
    {
      var (a, b) := pairs[k];
      assert (a, b) in pairs;
      MergingMatches(uf.repr, joined, a, b);
      uf.Union(a, b);
      joined := joined + {(a, b)};
    }
    assert joined == edges;
    var roots := Roots(uf);
    var clusters := GroupIndices(roots);
    components := CollectClusters(clusters, roots, edges);
  }

  // Clusters are visited in no particular order and then sorted.
  method CollectClusters(clusters: map<nat, seq<nat>>, ghost repr: seq<nat>, ghost edges: set<(nat, nat)>)
    returns (components: seq<seq<nat>>)
    requires RootsMatch(repr, edges)
    requires forall r :: r in clusters <==> r in repr
    requires forall r :: r in clusters ==> clusters[r] == IndicesOf(repr, r, |repr|)
    ensures IsComponents(components, |repr|, edges)
  {
    hide IsClass, RootsMatch, IndicesOf;
    var todo := clusters.Keys;
    var found: seq<seq<nat>> := [];
    while todo != {}
      invariant todo <= clusters.Keys
      invariant forall c :: c in found ==> IsClass(c, |repr|, edges) && ClassRoot(c, repr) !in todo
      invariant forall i, j :: 0 <= i < j < |found| ==> found[i] != found[j]
      invariant forall r :: r in clusters && r !in todo && |clusters[r]| > 1 ==> clusters[r] in found
    {
      var r :| r in todo;
      todo := todo - {r};
      if |clusters[r]| > 1 {
        MembersAreClass(repr, r, edges);
        SortByOfSorted(clusters[r], IndexKey);
        var c := SortBy(clusters[r], IndexKey);
        assert c !in found;
        found := found + [c];
      }
    }
    components := SortBy(found, ComponentKey);
    SortByStrict(found, ComponentKey);
    SortByElements(found, ComponentKey);
    forall x: nat, y: nat | x < |repr| && y < |repr| && x != y && Connected(edges, x, y)
      ensures exists c :: c in components && x in c
    {
      ConnectedShareCluster(repr, edges, x, y);
      assert clusters[repr[x]] in components;
    }
  }

  ghost function ClassRoot(c: seq<nat>, repr: seq<nat>): nat {
    if |c| > 0 && c[0] < |repr| then repr[c[0]] else 0
  }

  lemma MembersAreClass(repr: seq<nat>, r: nat, edges: set<(nat, nat)>)
    requires RootsMatch(repr, edges) && |IndicesOf(repr, r, |repr|)| > 1
    ensures var c := IndicesOf(repr, r, |repr|);
            IsClass(c, |repr|, edges) && SortedBy(c, IndexKey) && ClassRoot(c, repr) == r
  {
    IndicesOfMembers(repr, r, |repr|);
    var c := IndicesOf(repr, r, |repr|);
    assert c[0] in c;
  }

  lemma ConnectedShareCluster(repr: seq<nat>, edges: set<(nat, nat)>, x: nat, y: nat)
    requires RootsMatch(repr, edges) && x < |repr| && y < |repr| && x != y && Connected(edges, x, y)
    ensures x in IndicesOf(repr, repr[x], |repr|) && |IndicesOf(repr, repr[x], |repr|)| > 1
  {
    IndicesOfMembers(repr, repr[x], |repr|);
    var c := IndicesOf(repr, repr[x], |repr|);
    assert x in c && y in c;
  }

  // The edges the components are built from are the close pairs, when no bucket was skipped.
  lemma ComponentsOfClosePairs(hashes: seq<Hash64>, threshold: nat, cap: nat)
    requires threshold <= MAX_THRESHOLD && SkippedBuckets(hashes, cap, 4) == 0
    ensures forall a: nat, b: nat :: (a, b) in FoundSet(hashes, threshold, cap) <==> Close(hashes, threshold, a, b)
  {
    forall a: nat, b: nat
      ensures (a, b) in FoundSet(hashes, threshold, cap) <==> Close(hashes, threshold, a, b)
    {
      FullRecall(hashes, threshold, cap, a, b);
    }
  }
}
