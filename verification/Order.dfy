/**
 The one sort key and the one stable sort behind every "sorted by" in the model.

 Each ordering the source uses is a lexicographic tuple of integers around at most
 one byte string, so a single key type covers them all; unused positions are 0.
 */
module Order {

  type byte = x: int | 0 <= x < 256

  datatype Key = Key(rank: int, root: int, path: seq<int>, file: int, extra: int)

  // ----- lexicographic order on byte strings and on keys

  predicate LexLe(a: seq<int>, b: seq<int>) {
    |a| == 0 || (|b| > 0 && (a[0] < b[0] || (a[0] == b[0] && LexLe(a[1..], b[1..]))))
  }

  predicate KeyLe(a: Key, b: Key) {
    if a.rank != b.rank then a.rank < b.rank
    else if a.root != b.root then a.root < b.root
    else if a.path != b.path then LexLe(a.path, b.path)
    else if a.file != b.file then a.file < b.file
    else a.extra <= b.extra
  }

  predicate KeyLt(a: Key, b: Key) {
    KeyLe(a, b) && a != b
  }

  lemma {:induction false} LexTotal(a: seq<int>, b: seq<int>)
    ensures LexLe(a, b) || LexLe(b, a)
  {
    if |a| > 0 && |b| > 0 {
      LexTotal(a[1..], b[1..]);
    }
  }

  lemma {:induction false} LexAntisymmetric(a: seq<int>, b: seq<int>)
    requires LexLe(a, b) && LexLe(b, a)
    ensures a == b
  {
    if |a| > 0 {
      LexAntisymmetric(a[1..], b[1..]);
      assert a == [a[0]] + a[1..] && b == [b[0]] + b[1..];
    }
  }

  lemma {:induction false} LexTransitive(a: seq<int>, b: seq<int>, c: seq<int>)
    requires LexLe(a, b) && LexLe(b, c)
    ensures LexLe(a, c)
  {
    if |a| > 0 && a[0] == b[0] == c[0] {
      LexTransitive(a[1..], b[1..], c[1..]);
    }
  }

  // The first position where two strings differ decides.
  ghost predicate FirstDifferenceLess(a: seq<int>, b: seq<int>) {
    exists k :: 0 <= k < |a| && k < |b| && a[..k] == b[..k] && a[k] < b[k]
  }

  lemma FirstDifferenceStep(a: seq<int>, b: seq<int>)
    requires |a| > 0 && |b| > 0
    ensures FirstDifferenceLess(a, b) <==> a[0] < b[0] || (a[0] == b[0] && FirstDifferenceLess(a[1..], b[1..]))
  {
    if a[0] < b[0] { assert a[..0] == b[..0]; }
    if a[0] == b[0] && FirstDifferenceLess(a[1..], b[1..]) {
      var k :| 0 <= k < |a[1..]| && k < |b[1..]| && a[1..][..k] == b[1..][..k] && a[1..][k] < b[1..][k];
      assert a[..k + 1] == [a[0]] + a[1..][..k] && b[..k + 1] == [b[0]] + b[1..][..k];
    }
    if k :| 0 < k < |a| && k < |b| && a[..k] == b[..k] && a[k] < b[k] {
      assert a[..k][0] == b[..k][0];
      assert a[1..][..k - 1] == a[..k][1..] && b[1..][..k - 1] == b[..k][1..];
    }
  }

  // A prefix comes first; otherwise the first position that differs decides.
  lemma {:induction false} LexLeReads(a: seq<int>, b: seq<int>)
    ensures LexLe(a, b) <==> a <= b || FirstDifferenceLess(a, b)
  {
    if |a| > 0 && |b| > 0 {
      LexLeReads(a[1..], b[1..]);
      FirstDifferenceStep(a, b);
      assert a == [a[0]] + a[1..] && b == [b[0]] + b[1..];
      assert a <= b <==> a[0] == b[0] && a[1..] <= b[1..];
    }
  }

  lemma KeyTotal(a: Key, b: Key)
    ensures KeyLe(a, b) || KeyLe(b, a)
  {
    LexTotal(a.path, b.path);
  }

  lemma KeyAntisymmetric(a: Key, b: Key)
    requires KeyLe(a, b) && KeyLe(b, a)
    ensures a == b
  {
    if a.path != b.path && LexLe(a.path, b.path) && LexLe(b.path, a.path) {
      LexAntisymmetric(a.path, b.path);
    }
  }

  lemma KeyTransitive(a: Key, b: Key, c: Key)
    requires KeyLe(a, b) && KeyLe(b, c)
    ensures KeyLe(a, c)
  {
    if LexLe(a.path, b.path) && LexLe(b.path, c.path) {
      LexTransitive(a.path, b.path, c.path);
      if LexLe(b.path, a.path) { LexAntisymmetric(a.path, b.path); }
      if LexLe(c.path, b.path) { LexAntisymmetric(b.path, c.path); }
      if a.path == c.path { LexAntisymmetric(a.path, b.path); }
    }
  }

  // ----- the sort

  ghost predicate SortedBy<T(!new)>(s: seq<T>, key: T -> Key) {
    forall i, j :: 0 <= i < j < |s| ==> KeyLe(key(s[i]), key(s[j]))
  }

  ghost predicate StrictlySortedBy<T(!new)>(s: seq<T>, key: T -> Key) {
    forall i, j :: 0 <= i < j < |s| ==> KeyLt(key(s[i]), key(s[j]))
  }

  function Insert<T>(x: T, s: seq<T>, key: T -> Key): (r: seq<T>)
    ensures multiset(r) == multiset{x} + multiset(s)
    ensures |r| == |s| + 1
  {
    if |s| == 0 || KeyLe(key(x), key(s[0])) then [x] + s
    else
      assert s == [s[0]] + s[1..];
      [s[0]] + Insert(x, s[1..], key)
  }

  // Stable: elements with equal keys keep their relative order.
  function SortBy<T>(s: seq<T>, key: T -> Key): (r: seq<T>)
    ensures multiset(r) == multiset(s)
    ensures |r| == |s|
  {
    if |s| == 0 then [] else
      assert s == [s[0]] + s[1..];
      Insert(s[0], SortBy(s[1..], key), key)
  }

  lemma {:induction false} InsertSorted<T(!new)>(x: T, s: seq<T>, key: T -> Key)
    requires SortedBy(s, key)
    ensures SortedBy(Insert(x, s, key), key)
  {
    if |s| > 0 {
      if KeyLe(key(x), key(s[0])) {
        forall i | 0 <= i < |s| ensures KeyLe(key(x), key(s[i])) {
          if i > 0 { KeyTransitive(key(x), key(s[0]), key(s[i])); }
        }
      } else {
        KeyTotal(key(x), key(s[0]));
        InsertSorted(x, s[1..], key);
        var t := Insert(x, s[1..], key);
        forall i | 0 <= i < |t| ensures KeyLe(key(s[0]), key(t[i])) {
          assert t[i] in multiset(t);
          assert t[i] == x || t[i] in s[1..];
        }
      }
    }
  }

  lemma {:induction false} SortBySorted<T(!new)>(s: seq<T>, key: T -> Key)
    ensures SortedBy(SortBy(s, key), key)
  {
    if |s| > 0 {
      SortBySorted(s[1..], key);
      InsertSorted(s[0], SortBy(s[1..], key), key);
    }
  }

  lemma {:induction false} SortByOfSorted<T(!new)>(s: seq<T>, key: T -> Key)
    requires SortedBy(s, key)
    ensures SortBy(s, key) == s
  {
    if |s| > 0 {
      SortByOfSorted(s[1..], key);
      if |s| > 1 { assert KeyLe(key(s[0]), key(s[1])); }
    }
  }

  lemma SortByElements<T>(s: seq<T>, key: T -> Key)
    ensures forall x :: x in SortBy(s, key) <==> x in s
  {
    forall x ensures x in SortBy(s, key) <==> x in s {
      assert x in SortBy(s, key) <==> x in multiset(SortBy(s, key));
      assert x in s <==> x in multiset(s);
    }
  }

  ghost predicate Distinct<T(!new)>(s: seq<T>) {
    forall i, j :: 0 <= i < j < |s| ==> s[i] != s[j]
  }

  ghost predicate KeysDistinct<T(!new)>(s: seq<T>, key: T -> Key) {
    forall i, j :: 0 <= i < j < |s| ==> key(s[i]) != key(s[j])
  }

  lemma DistinctSnoc<T(!new)>(s: seq<T>, x: T)
    requires Distinct(s) && x !in s
    ensures Distinct(s + [x])
  {
  }

  lemma DistinctConcat<T(!new)>(a: seq<T>, b: seq<T>)
    requires Distinct(a) && Distinct(b) && forall x :: x in a ==> x !in b
    ensures Distinct(a + b)
  {
    forall i, j | 0 <= i < j < |a + b| ensures (a + b)[i] != (a + b)[j] {
      if i < |a| <= j {
        assert a[i] in a && b[j - |a|] in b;
      }
    }
  }

  // Two positions of a sequence holding the same element count twice in its multiset.
  lemma {:induction false} CountTwice<T>(s: seq<T>, i: int, j: int)
    requires 0 <= i < j < |s| && s[i] == s[j]
    ensures multiset(s)[s[i]] >= 2
  {
    assert s == s[..i] + [s[i]] + s[i + 1..j] + [s[j]] + s[j + 1..];
  }

  lemma {:induction false} DistinctCount<T(!new)>(s: seq<T>, x: T)
    requires Distinct(s)
    ensures multiset(s)[x] <= 1
  {
    if |s| > 0 {
      assert s == [s[0]] + s[1..];
      DistinctCount(s[1..], x);
      if x == s[0] {
        assert x !in s[1..];
        assert x !in multiset(s[1..]);
      }
    }
  }

  lemma SortKeepsDistinct<T(!new)>(s: seq<T>, key: T -> Key)
    requires Distinct(s)
    ensures Distinct(SortBy(s, key))
  {
    var r := SortBy(s, key);
    forall i, j | 0 <= i < j < |r| ensures r[i] != r[j] {
      if r[i] == r[j] {
        CountTwice(r, i, j);
        DistinctCount(s, r[i]);
        assert false;
      }
    }
  }

  // Sorting elements with pairwise distinct keys gives a strictly sorted sequence.
  lemma SortByStrict<T(!new)>(s: seq<T>, key: T -> Key)
    requires KeysDistinct(s, key)
    ensures StrictlySortedBy(SortBy(s, key), key)
  {
    SortBySorted(s, key);
    var r := SortBy(s, key);
    forall i, j | 0 <= i < j < |r| ensures key(r[i]) != key(r[j]) {
      if key(r[i]) == key(r[j]) {
        SortByElements(s, key);
        assert r[i] in s && r[j] in s;
        var a :| 0 <= a < |s| && s[a] == r[i];
        var b :| 0 <= b < |s| && s[b] == r[j];
        assert a == b;
        CountTwice(r, i, j);
        DistinctCount(s, r[i]);
        assert false;
      }
    }
  }

  // Sorting neither creates nor hides a repeated key.
  lemma RepeatSurvivesSort<T(!new)>(s: seq<T>, key: T -> Key)
    ensures KeysDistinct(SortBy(s, key), key) <==> KeysDistinct(s, key)
  {
    var r := SortBy(s, key);
    if KeysDistinct(s, key) { SortByStrict(s, key); }
    if KeysDistinct(r, key) {
      SortByElements(s, key);
      forall i, j | 0 <= i < j < |s| ensures key(s[i]) != key(s[j]) {
        if s[i] == s[j] {
          CountTwice(s, i, j);
          DistinctCount(r, s[i]);
        } else {
          assert s[i] in s && s[j] in s;
          var a :| 0 <= a < |r| && r[a] == s[i];
          var b :| 0 <= b < |r| && r[b] == s[j];
        }
      }
    }
  }

  // Whether a key repeats depends on the multiset of elements only.
  lemma RepeatsByMultiset<T(!new)>(s: seq<T>, key: T -> Key)
    ensures !KeysDistinct(s, key) <==> RepeatedKey(multiset(s), key)
  {
    if i, j :| 0 <= i < j < |s| && key(s[i]) == key(s[j]) {
      if s[i] == s[j] { CountTwice(s, i, j); }
      assert s[i] in multiset(s) && s[j] in multiset(s);
    }
    if x, y :| x in multiset(s) && y in multiset(s) && key(x) == key(y) && (x != y || multiset(s)[x] >= 2) {
      assert x in s && y in s;
      if x == y && Distinct(s) { DistinctCount(s, x); }
      if x != y {
        var i :| 0 <= i < |s| && s[i] == x;
        var j :| 0 <= j < |s| && s[j] == y;
        assert if i < j then key(s[i]) == key(s[j]) else key(s[j]) == key(s[i]);
      }
    }
  }

  ghost predicate RepeatedKey<T(!new)>(m: multiset<T>, key: T -> Key) {
    exists x, y :: x in m && y in m && key(x) == key(y) && (x != y || m[x] >= 2)
  }

  // A strictly sorted sequence is determined by the set of its elements.
  lemma {:induction false} StrictUnique<T(!new)>(s: seq<T>, t: seq<T>, key: T -> Key)
    requires StrictlySortedBy(s, key) && StrictlySortedBy(t, key)
    requires forall x :: x in s <==> x in t
    ensures s == t
  {
    assert |s| > 0 ==> s[0] in t;
    assert |t| > 0 ==> t[0] in s;
    if |s| > 0 && |t| > 0 {
      assert s[0] in t && t[0] in s;
      if s[0] != t[0] {
        assert KeyLt(key(t[0]), key(s[0]));
        assert KeyLt(key(s[0]), key(t[0]));
        KeyAntisymmetric(key(s[0]), key(t[0]));
        assert false;
      }
      forall x ensures x in s[1..] <==> x in t[1..] {
        if x in s[1..] {
          var i :| 1 <= i < |s| && s[i] == x;
          assert KeyLt(key(s[0]), key(x));
          assert x in s;
          assert x != s[0];
        }
        if x in t[1..] {
          var i :| 1 <= i < |t| && t[i] == x;
          assert KeyLt(key(t[0]), key(x));
          assert x in t;
          assert x != t[0];
        }
      }
      StrictUnique(s[1..], t[1..], key);
    }
  }

  // ----- collecting a set

  // s holds every element of the set once.
  ghost predicate Collects<T(!new)>(s: seq<T>, elements: set<T>) {
    Distinct(s) && forall x :: x in s <==> x in elements
  }

  ghost predicate Lists<T(!new)>(s: seq<T>, elements: set<T>, key: T -> Key) {
    StrictlySortedBy(s, key) && forall x :: x in s <==> x in elements
  }

  ghost predicate KeyInjective<T(!new)>(elements: set<T>, key: T -> Key) {
    forall x, y :: x in elements && y in elements && key(x) == key(y) ==> x == y
  }

  lemma {:induction false} CollectedSize<T(!new)>(s: seq<T>, elements: set<T>)
    requires Collects(s, elements)
    ensures |s| == |elements|
  {
    if |s| > 0 {
      assert s == [s[0]] + s[1..];
      CollectedSize(s[1..], elements - {s[0]});
    }
  }

  // What was collected, once sorted by a key that tells its elements apart, is their list.
  lemma SortedLists<T(!new)>(s: seq<T>, elements: set<T>, key: T -> Key)
    requires Collects(s, elements) && KeyInjective(elements, key)
    ensures Lists(SortBy(s, key), elements, key)
  {
    forall i, j | 0 <= i < j < |s| ensures key(s[i]) != key(s[j]) {
      assert s[i] in s && s[j] in s;
    }
    SortByStrict(s, key);
    SortByElements(s, key);
  }

  // ----- sizes

  lemma {:induction false} SubsetSize<T>(a: set<T>, b: set<T>)
    requires a <= b
    ensures |a| <= |b|
  {
    if a != {} {
      var x :| x in a;
      SubsetSize(a - {x}, b - {x});
    }
  }

  lemma {:induction false} SubsetOfSize<T>(s: set<T>, n: nat) returns (t: set<T>)
    requires n <= |s|
    ensures t <= s && |t| == n
  {
    if n == 0 {
      t := {};
    } else {
      var x :| x in s;
      var u := SubsetOfSize(s - {x}, n - 1);
      t := u + {x};
    }
  }

  lemma {:induction false} ImageSize<A(!new), B(!new)>(a: set<A>, f: A -> B, b: set<B>)
    requires b == set x | x in a :: f(x)
    requires forall x, y :: x in a && y in a && f(x) == f(y) ==> x == y
    ensures |a| == |b|
  {
    if a != {} {
      var x :| x in a;
      var a', b' := a - {x}, b - {f(x)};
      assert b' == set y | y in a' :: f(y);
      ImageSize(a', f, b');
    }
  }

  // Two sequences without repetition and with the same elements are permutations.
  lemma DistinctPermutation<T(!new)>(s: seq<T>, t: seq<T>)
    requires Distinct(s) && Distinct(t) && forall x :: x in s <==> x in t
    ensures multiset(s) == multiset(t)
  {
    forall x ensures multiset(s)[x] == multiset(t)[x] {
      DistinctCount(s, x);
      DistinctCount(t, x);
      assert x in multiset(s) <==> x in s;
      assert x in multiset(t) <==> x in t;
    }
  }

  // ----- greatest element; among equals the last, as an iterator's max_by_key returns it

  function MaxBy<T>(s: seq<T>, key: T -> Key): (m: T)
    requires |s| > 0
    ensures m in s
  {
    if |s| == 1 then s[0]
    else
      var m := MaxBy(s[..|s| - 1], key);
      if KeyLe(key(m), key(s[|s| - 1])) then s[|s| - 1] else m
  }

  lemma {:induction false} MaxByGreatest<T(!new)>(s: seq<T>, key: T -> Key)
    requires |s| > 0
    ensures forall x :: x in s ==> KeyLe(key(x), key(MaxBy(s, key)))
  {
    if |s| == 1 {
      KeyTotal(key(s[0]), key(s[0]));
    } else {
      var t, last := s[..|s| - 1], s[|s| - 1];
      MaxByGreatest(t, key);
      var m := MaxBy(t, key);
      KeyTotal(key(m), key(last));
      KeyTotal(key(last), key(last));
      forall x | x in s ensures KeyLe(key(x), key(MaxBy(s, key))) {
        if x in t { 
          if KeyLe(key(m), key(last)) { KeyTransitive(key(x), key(m), key(last)); }
        } else {
          assert x == last;
        }
      }
    }
  }

  // ----- indices of a sequence, ascending

  ghost predicate Ascending(s: seq<nat>) {
    forall x, y :: 0 <= x < y < |s| ==> s[x] < s[y]
  }

  function IndexKey(i: nat): Key {
    Key(0, i, [], 0, 0)
  }

  lemma AscendingUnique(c: seq<nat>, d: seq<nat>)
    requires Ascending(c) && Ascending(d) && forall z: nat :: z in c <==> z in d
    ensures c == d
  {
    StrictUnique(c, d, IndexKey);
  }

  lemma AscendingSnoc(s: seq<nat>, n: nat)
    requires Ascending(s) && forall i: nat :: i in s ==> i < n
    ensures Ascending(s + [n])
    ensures forall i: nat :: i in s + [n] <==> i in s || i == n
  {
    assert forall x :: 0 <= x < |s| ==> s[x] in s;
  }

  // The positions below n whose label is l.
  function IndicesOf<L(==)>(labels: seq<L>, l: L, n: nat): (r: seq<nat>)
    requires n <= |labels|
  {
    if n == 0 then [] else IndicesOf(labels, l, n - 1) + (if labels[n - 1] == l then [n - 1] else [])
  }

  lemma {:induction false} IndicesOfMembers<L>(labels: seq<L>, l: L, n: nat)
    requires n <= |labels|
    ensures Ascending(IndicesOf(labels, l, n))
    ensures forall i: nat :: i in IndicesOf(labels, l, n) <==> i < n && labels[i] == l
  {
    if n > 0 {
      IndicesOfMembers(labels, l, n - 1);
      var r := IndicesOf(labels, l, n - 1);
      if labels[n - 1] == l {
        AscendingSnoc(r, n - 1);
      }
    }
  }

  lemma {:induction false} IndicesOfAbsent<L>(labels: seq<L>, l: L, n: nat)
    requires n <= |labels| && forall j :: 0 <= j < n ==> labels[j] != l
    ensures IndicesOf(labels, l, n) == []
  {
    if n > 0 { IndicesOfAbsent(labels, l, n - 1); }
  }

  // The grouping loop: every position is pushed to the list kept under its label.
  method GroupIndices<L(==)>(labels: seq<L>) returns (groups: map<L, seq<nat>>)
    ensures forall l :: l in groups <==> l in labels
    ensures forall l :: l in groups ==> groups[l] == IndicesOf(labels, l, |labels|)
  {
    groups := map[];
    for i := 0 to |labels|
      invariant forall l :: l in groups <==> l in labels[..i]
      invariant forall l :: l in groups ==> groups[l] == IndicesOf(labels, l, i)
    {
      var l := labels[i];
      assert labels[..i + 1] == labels[..i] + [l];
      if l in groups {
        groups := groups[l := groups[l] + [i]];
      } else {
        assert forall j :: 0 <= j < i ==> labels[j] in labels[..i];
        IndicesOfAbsent(labels, l, i);
        groups := groups[l := [i]];
      }
    }
    assert labels[..|labels|] == labels;
  }
}
