/** Rearrangements of a sequence: mapping and sorting see what is there, not where it stands. */
module Permute {
  import opened Order

  function Mapped<A, B>(s: seq<A>, f: A -> B): (r: seq<B>)
    ensures |r| == |s| && forall i :: 0 <= i < |s| ==> r[i] == f(s[i])
  {
    seq(|s|, i requires 0 <= i < |s| => f(s[i]))
  }

  function Without<T>(s: seq<T>, j: int): (r: seq<T>)
    requires 0 <= j < |s|
    ensures |r| == |s| - 1
    ensures forall k :: 0 <= k < |r| ==> r[k] == s[if k < j then k else k + 1]
    ensures multiset(s) == multiset{s[j]} + multiset(r)
  {
    assert s == s[..j] + [s[j]] + s[j + 1..];
    s[..j] + s[j + 1..]
  }

  // The first element of one sequence, found in another with the same elements and taken out.
  lemma Peel<T>(s: seq<T>, t: seq<T>) returns (j: nat)
    requires multiset(s) == multiset(t) && t != []
    ensures |s| == |t| && j < |s| && s[j] == t[0]
    ensures multiset(Without(s, j)) == multiset(t[1..])
  {
    assert |s| == |multiset(s)| == |multiset(t)| == |t|;
    assert t[0] in multiset(s);
    j :| 0 <= j < |s| && s[j] == t[0];
    assert t == [t[0]] + t[1..];
    assert multiset(Without(s, j)) == multiset(s) - multiset{t[0]};
  }

  lemma {:induction false} MapKeepsMultiset<A, B>(s: seq<A>, t: seq<A>, f: A -> B)
    requires multiset(s) == multiset(t)
    ensures multiset(Mapped(s, f)) == multiset(Mapped(t, f))
  {
    if t == [] {
      assert |s| == |multiset(s)| == 0;
    } else {
      var j := Peel(s, t);
      MapKeepsMultiset(Without(s, j), t[1..], f);
      assert Mapped(Without(s, j), f) == Without(Mapped(s, f), j);
      assert Mapped(t, f) == [f(t[0])] + Mapped(t[1..], f);
    }
  }

  // ----- rearrangements by position

  ghost predicate Rearranges(order: seq<nat>, n: nat) {
    |order| == n && Distinct(order) && forall k :: 0 <= k < n ==> order[k] < n
  }

  function Indices(n: nat): (r: seq<nat>)
    ensures |r| == n && forall i :: 0 <= i < n ==> r[i] == i
  {
    seq(n, i requires 0 <= i < n => i)
  }

  function Elements(s: seq<nat>): set<nat> {
    set x | x in s
  }

  lemma DistinctSize(s: seq<nat>)
    requires Distinct(s)
    ensures |Elements(s)| == |s|
  {
    CollectedSize(s, Elements(s));
  }

  lemma RearrangesOnto(order: seq<nat>, n: nat)
    requires Rearranges(order, n)
    ensures forall i: nat :: i < n <==> i in order
    ensures multiset(order) == multiset(Indices(n))
  {
    var all := Indices(n);
    DistinctSize(order);
    DistinctSize(all);
    assert forall x :: x in order ==> x < n && all[x] == x;
    assert Elements(order) <= Elements(all);
    forall i: nat | i < n ensures i in order {
      if i !in order {
        assert all[i] == i;
        SubsetSize(Elements(order) + {i}, Elements(all));
        assert false;
      }
    }
    forall x: nat ensures x in order <==> x in all {
      if x < n { assert all[x] == x; }
    }
    DistinctPermutation(order, all);
  }

  // An equal multiset is a rearrangement by position.
  lemma {:induction false} FindRearrangement<T>(s: seq<T>, t: seq<T>) returns (order: seq<nat>)
    requires multiset(s) == multiset(t)
    ensures |t| == |s| && Rearranges(order, |s|)
    ensures forall k :: 0 <= k < |s| ==> t[k] == s[order[k]]
  {
    if t == [] {
      assert |s| == |multiset(s)| == 0;
      order := [];
    } else {
      var j := Peel(s, t);
      var inner := FindRearrangement(Without(s, j), t[1..]);
      order := Extended(j, inner);
      forall k | 0 <= k < |s| ensures t[k] == s[order[k]] {
        if k > 0 { assert t[k] == t[1..][k - 1] == Without(s, j)[inner[k - 1]]; }
      }
    }
  }

  // j first, then the positions of `inner` counted with j left out.
  ghost function Extended(j: nat, inner: seq<nat>): (order: seq<nat>)
    requires Rearranges(inner, |inner|) && j <= |inner|
    ensures Rearranges(order, |inner| + 1) && order[0] == j
    ensures forall k :: 0 <= k < |inner| ==> order[k + 1] == if inner[k] < j then inner[k] else inner[k] + 1
  {
    var rest: seq<nat> := seq(|inner|, k requires 0 <= k < |inner| => if inner[k] < j then inner[k] else inner[k] + 1);
    assert Distinct(rest) && j !in rest;
    [j] + rest
  }

  // ----- sorting

  // When equal keys mean equal elements, a sorted sequence is determined by its multiset.
  lemma {:induction false} SortedUnique<T(!new)>(s: seq<T>, t: seq<T>, key: T -> Key)
    requires SortedBy(s, key) && SortedBy(t, key) && multiset(s) == multiset(t)
    requires forall x, y :: x in s && y in s && key(x) == key(y) ==> x == y
    ensures s == t
  {
    if t == [] {
      assert |s| == |multiset(s)| == 0;
    } else {
      var j := Peel(s, t);
      assert s[0] in s && s[j] in s;
      assert s[0] == t[0] by {
        assert s[0] in multiset(t);
        SortedHeads(s, t, key, j);
      }
      SameHeads(s, t);
      assert forall x :: x in s[1..] ==> x in s;
      SortedUnique(s[1..], t[1..], key);
    }
  }

  lemma CancelOne<T>(x: T, a: multiset<T>, b: multiset<T>)
    requires multiset{x} + a == multiset{x} + b
    ensures a == b
  {
    forall y ensures a[y] == b[y] {
      assert (multiset{x} + a)[y] == (multiset{x} + b)[y];
    }
  }

  lemma HeadCounts<T>(s: seq<T>)
    requires s != []
    ensures s == [s[0]] + s[1..]
    ensures multiset(s) == multiset{s[0]} + multiset(s[1..])
  {
    assert s == [s[0]] + s[1..];
  }

  lemma SameHeads<T>(s: seq<T>, t: seq<T>)
    requires multiset(s) == multiset(t) && s != [] && t != [] && s[0] == t[0]
    ensures s == [s[0]] + s[1..] && t == [s[0]] + t[1..]
    ensures multiset(s[1..]) == multiset(t[1..])
  {
    HeadCounts(s);
    HeadCounts(t);
    CancelOne(s[0], multiset(s[1..]), multiset(t[1..]));
  }

  lemma SortedHeads<T(!new)>(s: seq<T>, t: seq<T>, key: T -> Key, j: nat)
    requires SortedBy(s, key) && SortedBy(t, key)
    requires t != [] && j < |s| && s[j] == t[0] && s[0] in t
    ensures key(s[0]) == key(t[0])
  {
    var i :| 0 <= i < |t| && t[i] == s[0];
    KeyTotal(key(s[0]), key(s[0]));
    KeyTotal(key(t[0]), key(t[0]));
    KeyAntisymmetric(key(s[0]), key(t[0]));
  }

  lemma SortForgetsOrder<T(!new)>(s: seq<T>, t: seq<T>, key: T -> Key)
    requires multiset(s) == multiset(t)
    requires forall x, y :: x in s && y in s && key(x) == key(y) ==> x == y
    ensures SortBy(s, key) == SortBy(t, key)
  {
    SortBySorted(s, key);
    SortBySorted(t, key);
    SortByElements(s, key);
    SortedUnique(SortBy(s, key), SortBy(t, key), key);
  }

  ghost predicate Carries<A(!new), B>(f: A -> B, key: A -> Key, image: B -> Key) {
    forall y :: key(y) == image(f(y))
  }

  lemma MappedCons<A, B>(x: A, s: seq<A>, f: A -> B)
    ensures Mapped([x] + s, f) == [f(x)] + Mapped(s, f)
  {
  }

  lemma InsertStep<T>(x: T, s: seq<T>, key: T -> Key)
    requires s != []
    ensures Insert(x, s, key) == if KeyLe(key(x), key(s[0])) then [x] + s else [s[0]] + Insert(x, s[1..], key)
  {
    hide KeyLe;
  }

  lemma {:induction false} InsertMapped<A(!new), B>(x: A, s: seq<A>, f: A -> B, key: A -> Key, image: B -> Key)
    requires Carries(f, key, image)
    ensures Mapped(Insert(x, s, key), f) == Insert(f(x), Mapped(s, f), image)
  {
    var m := Mapped(s, f);
    if s == [] {
      MappedCons(x, s, f);
    } else {
      assert key(x) == image(f(x)) && key(s[0]) == image(m[0]);
      InsertMapped(x, s[1..], f, key, image);
      InsertStep(x, s, key);
      InsertStep(f(x), m, image);
      hide Carries, Insert, KeyLe;
      MappedCons(x, s, f);
      MappedCons(s[0], Insert(x, s[1..], key), f);
      assert m[1..] == Mapped(s[1..], f);
    }
  }

  // A sort whose key survives a mapping commutes with it.
  lemma {:induction false} SortMapped<A(!new), B>(s: seq<A>, f: A -> B, key: A -> Key, image: B -> Key)
    requires Carries(f, key, image)
    ensures Mapped(SortBy(s, key), f) == SortBy(Mapped(s, f), image)
  {
    hide Carries, Insert;
    if s != [] {
      var m, sorted := Mapped(s, f), SortBy(s[1..], key);
      SortMapped(s[1..], f, key, image);
      InsertMapped(s[0], sorted, f, key, image);
      assert m[1..] == Mapped(s[1..], f);
    }
  }

  // Every element of a sorted image is the image of something.
  lemma SortedFrom<A, B>(s: seq<A>, f: A -> B, key: B -> Key, k: nat) returns (i: nat)
    requires k < |s|
    ensures i < |s| && SortBy(Mapped(s, f), key)[k] == f(s[i])
  {
    var m := Mapped(s, f);
    hide SortBy;
    var r := SortBy(m, key);
    assert r[k] in multiset(r) && r[k] in multiset(m);
    i :| 0 <= i < |m| && m[i] == r[k];
  }

  // ----- stability

  // In key order, and where keys are equal in position order.
  ghost predicate StableIn(order: seq<nat>, key: nat -> Key) {
    forall j, k :: 0 <= j < k < |order| ==>
      KeyLt(key(order[j]), key(order[k])) || (key(order[j]) == key(order[k]) && order[j] < order[k])
  }

  lemma {:induction false} InsertStable(x: nat, s: seq<nat>, key: nat -> Key)
    requires StableIn(s, key) && forall y :: y in s ==> x < y
    ensures StableIn(Insert(x, s, key), key)
  {
    var r := Insert(x, s, key);
    KeyTotal(key(x), key(x));
    hide KeyLe;
    if s == [] {
    } else if KeyLe(key(x), key(s[0])) {
      forall k | 0 <= k < |s| ensures KeyLe(key(x), key(s[k])) {
        KeyTotal(key(s[0]), key(s[0]));
        KeyTransitive(key(x), key(s[0]), key(s[k]));
      }
      assert forall k :: 0 <= k < |s| ==> s[k] in s;
    } else {
      KeyTotal(key(x), key(s[0]));
      assert s[0] in s && forall y :: y in s[1..] ==> y in s;
      InsertStable(x, s[1..], key);
      var t := Insert(x, s[1..], key);
      forall k | 0 <= k < |t|
        ensures KeyLt(key(s[0]), key(t[k])) || (key(s[0]) == key(t[k]) && s[0] < t[k])
      {
        assert t[k] in multiset(t);
        assert t[k] == x || t[k] in s[1..];
      }
      assert r == [s[0]] + t;
    }
  }

  lemma {:induction false} SortStable(s: seq<nat>, key: nat -> Key)
    requires Ascending(s)
    ensures StableIn(SortBy(s, key), key)
  {
    if s != [] {
      SortStable(s[1..], key);
      SortByElements(s[1..], key);
      InsertStable(s[0], SortBy(s[1..], key), key);
    }
  }

  function At<T>(s: seq<T>): nat -> T
    requires s != []
  {
    (i: nat) => if i < |s| then s[i] else s[0]
  }

  function KeyAt<T>(s: seq<T>, key: T -> Key): nat -> Key
    requires s != []
  {
    (i: nat) => key(At(s)(i))
  }

  lemma SortedIndices(n: nat, key: nat -> Key)
    ensures Rearranges(SortBy(Indices(n), key), n)
    ensures StableIn(SortBy(Indices(n), key), key)
  {
    var all := Indices(n);
    var order := SortBy(all, key);
    SortStable(all, key);
    SortKeepsDistinct(all, key);
    SortByElements(all, key);
    hide SortBy;
    assert forall k :: 0 <= k < |order| ==> order[k] in order && order[k] in all;
  }

  // The positions come in key order, and in position order where keys are equal.
  ghost predicate InStableOrder<T(!new)>(s: seq<T>, key: T -> Key, order: seq<nat>) {
    Rearranges(order, |s|)
    && forall j, k :: 0 <= j < k < |s| ==> Precedes(s, key, order[j], order[k])
  }

  ghost predicate Precedes<T(!new)>(s: seq<T>, key: T -> Key, i: nat, j: nat)
    requires i < |s| && j < |s|
  {
    KeyLt(key(s[i]), key(s[j])) || (key(s[i]) == key(s[j]) && i < j)
  }

  // Sorting positions and fetching what stands there is sorting.
  lemma SortByPositions<T(!new)>(s: seq<T>, key: T -> Key)
    requires s != []
    ensures Mapped(SortBy(Indices(|s|), KeyAt(s, key)), At(s)) == SortBy(s, key)
  {
    hide SortBy;
    SortMapped(Indices(|s|), At(s), KeyAt(s, key), key) by {
      assert forall y :: KeyAt(s, key)(y) == key(At(s)(y));
    }
    assert Mapped(Indices(|s|), At(s)) == s;
  }

  // The positions a stable sort takes its elements from, in order.
  lemma StableOrder<T(!new)>(s: seq<T>, key: T -> Key) returns (order: seq<nat>)
    ensures InStableOrder(s, key, order)
    ensures forall k :: 0 <= k < |s| ==> SortBy(s, key)[k] == s[order[k]]
  {
    if s == [] { return []; }
    hide SortBy;
    order := SortBy(Indices(|s|), KeyAt(s, key));
    SortedIndices(|s|, KeyAt(s, key));
    SortByPositions(s, key);
    hide KeyLe;
    forall j, k | 0 <= j < k < |s| ensures Precedes(s, key, order[j], order[k]) {
      assert At(s)(order[j]) == s[order[j]] && At(s)(order[k]) == s[order[k]];
    }
    hide Precedes;
    forall k | 0 <= k < |s| ensures SortBy(s, key)[k] == s[order[k]] {
      assert Mapped(order, At(s))[k] == At(s)(order[k]);
    }
  }

  lemma SameKeysSameOrder<A(!new), B(!new)>(s: seq<A>, key: A -> Key, t: seq<B>, other: B -> Key, order: seq<nat>)
    requires InStableOrder(s, key, order) && |t| == |s|
    requires forall i :: 0 <= i < |s| ==> key(s[i]) == other(t[i])
    ensures InStableOrder(t, other, order)
  {
    hide KeyLe;
    forall j, k | 0 <= j < k < |t| ensures Precedes(t, other, order[j], order[k]) {
      assert Precedes(s, key, order[j], order[k]);
    }
  }

  // Preparing, sorting and stamping again changes nothing that is prepared, sorted and stamped.
  lemma SortPassStays<T(!new)>(s: seq<T>, prepare: T -> T, key: T -> Key, stamp: T -> T)
    requires forall x :: prepare(stamp(prepare(x))) == stamp(prepare(x))
    requires forall x :: key(stamp(prepare(x))) == key(prepare(x))
    requires forall x :: stamp(stamp(prepare(x))) == stamp(prepare(x))
    ensures var out := Mapped(SortBy(Mapped(s, prepare), key), stamp);
            Mapped(SortBy(Mapped(out, prepare), key), stamp) == out
  {
    var sorted := SortBy(Mapped(s, prepare), key);
    var out := Mapped(sorted, stamp);
    SortBySorted(Mapped(s, prepare), key);
    forall k | 0 <= k < |out|
      ensures prepare(out[k]) == out[k] && key(out[k]) == key(sorted[k]) && stamp(out[k]) == out[k]
    {
      var i := SortedFrom(s, prepare, key, k);
    }
    hide SortBy, KeyLe;
    assert Mapped(out, prepare) == out;
    SortByOfSorted(out, key);
    assert Mapped(out, stamp) == out;
  }

  // What is sorted already is listed in place.
  lemma SortedOrderIsIdentity<T(!new)>(s: seq<T>, key: T -> Key, order: seq<nat>)
    requires SortedBy(s, key) && InStableOrder(s, key, order)
    ensures forall k :: 0 <= k < |s| ==> order[k] == k
  {
    forall j, k | 0 <= j < k < |s| ensures order[j] < order[k] {
      assert Precedes(s, key, order[j], order[k]);
      if order[k] < order[j] {
        KeyAntisymmetric(key(s[order[j]]), key(s[order[k]]));
      }
    }
    RearrangesOnto(order, |s|);
    var all := Indices(|s|);
    forall z: nat ensures z in order <==> z in all {
      if z < |s| { assert all[z] == z; }
    }
    AscendingUnique(order, all);
  }

  lemma PrecedesAsymmetric<T(!new)>(s: seq<T>, key: T -> Key, i: nat, j: nat)
    requires i < |s| && j < |s| && Precedes(s, key, i, j)
    ensures !Precedes(s, key, j, i)
  {
    if Precedes(s, key, j, i) {
      KeyAntisymmetric(key(s[i]), key(s[j]));
    }
  }

  lemma ListedFirst<T(!new)>(s: seq<T>, key: T -> Key, order: seq<nat>, x: nat, y: nat)
    requires InStableOrder(s, key, order) && x < |s| && y < |s|
    requires Precedes(s, key, order[x], order[y])
    ensures x < y
  {
    PrecedesAsymmetric(s, key, order[x], order[y]);
    hide KeyLe;
  }

  // ----- overwriting listed positions one after the other

  ghost predicate Overwritten<T>(start: seq<T>, target: seq<T>, places: seq<nat>, r: nat, now: seq<T>) {
    |start| == |target| == |now| && r <= |places|
    && forall k: nat :: k < |now| ==> now[k] == if k in places[..r] then target[k] else start[k]
  }

  lemma OverwriteStart<T>(start: seq<T>, target: seq<T>, places: seq<nat>)
    requires |start| == |target|
    ensures Overwritten(start, target, places, 0, start)
  {
  }

  lemma OverwriteStep<T>(start: seq<T>, target: seq<T>, places: seq<nat>, r: nat, now: seq<T>)
    requires Distinct(places) && r < |places| && places[r] < |start|
    requires Overwritten(start, target, places, r, now)
    ensures now[places[r]] == start[places[r]]
    ensures Overwritten(start, target, places, r + 1, now[places[r] := target[places[r]]])
  {
    var at, next := places[r], now[places[r] := target[places[r]]];
    assert at !in places[..r];
    assert places[..r + 1] == places[..r] + [at];
    forall k: nat | k < |now| ensures next[k] == if k in places[..r + 1] then target[k] else start[k] {
      assert k in places[..r + 1] <==> k in places[..r] || k == at;
    }
  }

  lemma OverwriteFrame<T>(start: seq<T>, target: seq<T>, places: seq<nat>, r: nat, now: seq<T>)
    requires Overwritten(start, target, places, r, now)
    ensures |now| == |start| == |target|
    ensures forall k: nat :: k < |now| && k !in places ==> now[k] == start[k]
    ensures r == |places| ==> forall k: nat :: k < |now| && k in places ==> now[k] == target[k]
  {
    assert forall k: nat :: k in places[..r] ==> k in places;
    assert places[..|places|] == places;
  }

  // ----- equality of what a sorted sequence shows

  lemma RearrangedMultiset<T>(s: seq<T>, t: seq<T>, order: seq<nat>)
    requires Rearranges(order, |s|) && |t| == |s| && forall k :: 0 <= k < |s| ==> t[k] == s[order[k]]
    ensures multiset(s) == multiset(t)
  {
    if s != [] {
      RearrangesOnto(order, |s|);
      MapKeepsMultiset(order, Indices(|s|), At(s));
      assert Mapped(order, At(s)) == t && Mapped(Indices(|s|), At(s)) == s;
    }
  }

  lemma DistinctKeysTell<T(!new)>(s: seq<T>, key: T -> Key)
    requires KeysDistinct(s, key)
    ensures forall x, y :: x in s && y in s && key(x) == key(y) ==> x == y
  {
    forall x, y | x in s && y in s && key(x) == key(y) ensures x == y {
      var i :| 0 <= i < |s| && s[i] == x;
      var j :| 0 <= j < |s| && s[j] == y;
      assert i < j || j < i || i == j;
    }
  }

  // What a sorted sequence shows depends on what it shows unsorted, if equal keys show the same.
  lemma SortedFaces<T(!new), U(!new)>(s: seq<T>, f: T -> U, t: seq<T>, g: T -> U, key: T -> Key, image: U -> Key)
    requires multiset(Mapped(s, f)) == multiset(Mapped(t, g)) && Carries(f, key, image) && Carries(g, key, image)
    requires forall i, j :: 0 <= i < j < |s| && key(s[i]) == key(s[j]) ==> f(s[i]) == f(s[j])
    ensures Mapped(SortBy(s, key), f) == Mapped(SortBy(t, key), g)
  {
    SortMapped(s, f, key, image);
    SortMapped(t, g, key, image);
    var faces := Mapped(s, f);
    forall x, y | x in faces && y in faces && image(x) == image(y) ensures x == y {
      var i :| 0 <= i < |faces| && faces[i] == x;
      var j :| 0 <= j < |faces| && faces[j] == y;
      assert key(s[i]) == image(x) && key(s[j]) == image(y);
      assert i < j || j < i || i == j;
    }
    SortForgetsOrder(faces, Mapped(t, g), image);
  }
}
