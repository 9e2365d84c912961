/**
 Collision sets (src/core/plan.rs): actions that want the same destination, ranked.

 An entrant's rank is how many of its rivals stand ahead of it; equal rank keys are decided
 by position, as a stable sort decides them.
 */
module Contest {
  import opened Basics
  import opened Order
  import opened Hex
  import opened Permute

  datatype EntryKey = EntryKey(root: nat, file: int)

  datatype Label = Label(root: nat, parts: seq<Text>)

  datatype Entrant = Entrant(wants: Label, key: Key, entry: EntryKey)

  // One position per action; None for an action that never collides.
  type Entrants = seq<Option<Entrant>>

  predicate Rivals(es: Entrants, i: nat, j: nat)
    requires i < |es| && j < |es|
  {
    es[i].Some? && es[j].Some? && es[i].value.wants == es[j].value.wants
  }

  predicate Ahead(es: Entrants, i: nat, j: nat)
    requires i < |es| && j < |es|
  {
    es[i].Some? && es[j].Some?
    && (KeyLt(es[i].value.key, es[j].value.key) || (es[i].value.key == es[j].value.key && i < j))
  }

  ghost function RivalsAhead(es: Entrants, i: nat): set<nat>
    requires i < |es|
  {
    set j: nat | j < |es| && Rivals(es, j, i) && Ahead(es, j, i)
  }

  ghost function Rank(es: Entrants, i: nat): nat
    requires i < |es|
  {
    |RivalsAhead(es, i)|
  }

  function LabelOf(e: Option<Entrant>): Option<Label> {
    if e.None? then None else Some(e.value.wants)
  }

  function Labels(es: Entrants): seq<Option<Label>> {
    Mapped(es, LabelOf)
  }

  // The collision set of entrant i, itself included.
  function Crowd(es: Entrants, i: nat): seq<nat>
    requires i < |es|
  {
    IndicesOf(Labels(es), Labels(es)[i], |es|)
  }

  lemma CrowdIs(es: Entrants, i: nat)
    requires i < |es| && es[i].Some?
    ensures Ascending(Crowd(es, i)) && Distinct(Crowd(es, i))
    ensures forall j: nat :: j in Crowd(es, i) <==> j < |es| && Rivals(es, j, i)
  {
    IndicesOfMembers(Labels(es), Labels(es)[i], |es|);
  }

  function EntryOrder(e: EntryKey): Key {
    Key(0, e.root, [], e.file, 0)
  }

  function EntryAt(es: Entrants): nat -> EntryKey {
    (i: nat) => if i < |es| && es[i].Some? then es[i].value.entry else EntryKey(0, 0)
  }

  // The whole collision set by entry, sorted: the same list for every member.
  function Competing(es: Entrants, i: nat): seq<EntryKey>
    requires i < |es|
  {
    SortBy(Mapped(Crowd(es, i), EntryAt(es)), EntryOrder)
  }

  // The rivals of i, itself among them.
  ghost function RivalSet(es: Entrants, i: nat): set<nat>
    requires i < |es|
  {
    set j: nat | j < |es| && Rivals(es, j, i)
  }

  lemma CrowdEntries(es: Entrants, crowd: seq<nat>, e: EntryKey)
    requires forall x :: 0 <= x < |crowd| ==> crowd[x] < |es| && es[crowd[x]].Some?
    ensures e in Mapped(crowd, EntryAt(es)) <==> exists x :: 0 <= x < |crowd| && EntryAt(es)(crowd[x]) == e
  {
    var entries := Mapped(crowd, EntryAt(es));
    hide EntryAt;
    if e in entries {
      var x :| 0 <= x < |entries| && entries[x] == e;
      assert EntryAt(es)(crowd[x]) == e;
    }
    if x :| 0 <= x < |crowd| && EntryAt(es)(crowd[x]) == e {
      assert entries[x] == e;
    }
  }

  lemma CrowdIsRivals(es: Entrants, i: nat)
    requires i < |es| && es[i].Some?
    ensures Elements(Crowd(es, i)) == RivalSet(es, i) && |Crowd(es, i)| == |RivalSet(es, i)|
    ensures forall x :: 0 <= x < |Crowd(es, i)| ==> Crowd(es, i)[x] < |es| && es[Crowd(es, i)[x]].Some?
  {
    var crowd := Crowd(es, i);
    CrowdIs(es, i);
    DistinctSize(crowd);
    hide Crowd, Ascending, Distinct;
    assert Elements(crowd) == RivalSet(es, i);
    assert forall x :: 0 <= x < |crowd| ==> crowd[x] in crowd;
  }

  lemma EntriesInOrder(c: seq<EntryKey>, x: nat, y: nat)
    requires SortedBy(c, EntryOrder) && x < y < |c|
    ensures c[x].root < c[y].root || (c[x].root == c[y].root && c[x].file <= c[y].file)
  {
    assert KeyLe(EntryOrder(c[x]), EntryOrder(c[y]));
  }

  // The entries of the rivals, ascending by root and file, one for each rival.
  lemma CompetingReads(es: Entrants, i: nat)
    requires i < |es| && es[i].Some?
    ensures |Competing(es, i)| == |RivalSet(es, i)|
    ensures forall e :: e in Competing(es, i) <==> exists j: nat :: j in RivalSet(es, i) && EntryAt(es)(j) == e
    ensures var c := Competing(es, i);
            forall x, y :: 0 <= x < y < |c| ==> c[x].root < c[y].root || (c[x].root == c[y].root && c[x].file <= c[y].file)
  {
    var crowd := Crowd(es, i);
    CrowdIsRivals(es, i);
    SortByElements(Mapped(crowd, EntryAt(es)), EntryOrder);
    SortBySorted(Mapped(crowd, EntryAt(es)), EntryOrder);
    hide Crowd, SortBy, SortedBy, EntryAt, RivalSet, EntryOrder, Rivals;
    var c := Competing(es, i);
    forall e ensures e in c <==> exists j: nat :: j in RivalSet(es, i) && EntryAt(es)(j) == e {
      CrowdEntries(es, crowd, e);
      if x :| 0 <= x < |crowd| && EntryAt(es)(crowd[x]) == e { assert crowd[x] in Elements(crowd); }
      if j: nat :| j in RivalSet(es, i) && EntryAt(es)(j) == e { assert j in crowd; }
    }
    forall x, y | 0 <= x < y < |c| ensures c[x].root < c[y].root || (c[x].root == c[y].root && c[x].file <= c[y].file) {
      EntriesInOrder(c, x, y);
    }
  }

  function RankKeyAt(es: Entrants): nat -> Key {
    (i: nat) => if i < |es| && es[i].Some? then es[i].value.key else Key(0, 0, [], 0, 0)
  }

  // The collision set in rank order, by a stable sort.
  function Ranked(es: Entrants, i: nat): seq<nat>
    requires i < |es|
  {
    SortBy(Crowd(es, i), RankKeyAt(es))
  }

  lemma RankedIs(es: Entrants, i: nat)
    requires i < |es| && es[i].Some?
    ensures StableIn(Ranked(es, i), RankKeyAt(es)) && Distinct(Ranked(es, i))
    ensures |Ranked(es, i)| == |Crowd(es, i)|
    ensures forall j: nat :: j in Ranked(es, i) <==> j < |es| && Rivals(es, j, i)
  {
    CrowdIs(es, i);
    SortStable(Crowd(es, i), RankKeyAt(es));
    SortByElements(Crowd(es, i), RankKeyAt(es));
    SortKeepsDistinct(Crowd(es, i), RankKeyAt(es));
  }

  lemma AheadAsymmetric(es: Entrants, i: nat, j: nat)
    requires i < |es| && j < |es| && Ahead(es, i, j)
    ensures !Ahead(es, j, i)
  {
    if Ahead(es, j, i) { KeyAntisymmetric(es[i].value.key, es[j].value.key); }
  }

  lemma RankedAhead(es: Entrants, i: nat, x: nat, y: nat)
    requires i < |es| && es[i].Some? && x < y < |Ranked(es, i)|
    ensures Ranked(es, i)[x] < |es| && Ranked(es, i)[y] < |es| && Ahead(es, Ranked(es, i)[x], Ranked(es, i)[y])
  {
    RankedIs(es, i);
    hide Ranked, Crowd, KeyLe;
    assert Ranked(es, i)[x] in Ranked(es, i) && Ranked(es, i)[y] in Ranked(es, i);
  }

  // The stable sort puts every member of a collision set at its rank.
  lemma RankedAtRank(es: Entrants, i: nat, r: nat)
    requires i < |es| && es[i].Some? && r < |Ranked(es, i)|
    ensures Ranked(es, i)[r] < |es| && Rivals(es, Ranked(es, i)[r], i)
    ensures Rank(es, Ranked(es, i)[r]) == r
  {
    hide Ranked, Crowd, Ahead, StableIn, Rivals;
    var ranked := Ranked(es, i);
    RankedIs(es, i);
    var m := ranked[r];
    assert m in ranked;
    var front := ranked[..r];
    DistinctSize(front);
    assert forall j: nat :: j in ranked ==> (Rivals(es, j, m) <==> Rivals(es, j, i)) by { RivalsTransitive(es, i); }
    forall j: nat ensures j in Elements(front) <==> j in RivalsAhead(es, m) {
      if j in front {
        var x :| 0 <= x < r && ranked[x] == j;
        assert j in ranked;
        RankedAhead(es, i, x, r);
      }
      if j in RivalsAhead(es, m) {
        RivalsTransitive(es, i);
        assert j in ranked;
        var x :| 0 <= x < |ranked| && ranked[x] == j;
        AheadAsymmetric(es, j, m);
        if r < x { RankedAhead(es, i, r, x); }
        assert front[x] == j;
      }
    }
    assert Elements(front) == RivalsAhead(es, m);
  }

  lemma AheadTransitive(es: Entrants, i: nat, j: nat, k: nat)
    requires i < |es| && j < |es| && k < |es| && Ahead(es, i, j) && Ahead(es, j, k)
    ensures Ahead(es, i, k)
  {
    KeyTransitive(es[i].value.key, es[j].value.key, es[k].value.key);
    if es[i].value.key == es[k].value.key {
      KeyAntisymmetric(es[i].value.key, es[j].value.key);
    }
  }

  // Among rivals, to be ahead is to have the lower rank.
  lemma RankDecides(es: Entrants, i: nat, j: nat)
    requires i < |es| && j < |es| && Rivals(es, i, j) && Ahead(es, i, j)
    ensures Rank(es, i) < Rank(es, j)
  {
    hide Ahead;
    forall x | x in RivalsAhead(es, i) ensures x in RivalsAhead(es, j) {
      AheadTransitive(es, x, i, j);
    }
    assert i in RivalsAhead(es, j);
    if Ahead(es, i, i) { AheadAsymmetric(es, i, i); }
    assert i !in RivalsAhead(es, i);
    SubsetSize(RivalsAhead(es, i), RivalsAhead(es, j) - {i});
  }

  lemma RivalsTransitive(es: Entrants, i: nat)
    requires i < |es|
    ensures forall j: nat, m: nat :: j < |es| && m < |es| && Rivals(es, m, i) ==> (Rivals(es, j, m) <==> Rivals(es, j, i))
  {
  }

  // ----- contests seen under a rearrangement

  // b is a rearranged, rivalry and precedence kept.
  ghost predicate SameContest(a: Entrants, b: Entrants, order: seq<nat>) {
    && |a| == |b|
    && Rearranges(order, |a|)
    && (forall k :: 0 <= k < |b| ==> b[k].Some? == a[order[k]].Some?)
    && (forall k :: 0 <= k < |b| && b[k].Some? ==> b[k].value.entry == a[order[k]].value.entry)
    && (forall j, k :: 0 <= j < |b| && 0 <= k < |b| ==> Rivals(b, j, k) == Rivals(a, order[j], order[k]))
  }

  ghost predicate SamePrecedence(a: Entrants, b: Entrants, order: seq<nat>)
    requires |a| == |b| && Rearranges(order, |a|)
  {
    forall j, k :: 0 <= j < |b| && 0 <= k < |b| && Rivals(b, j, k) ==> Ahead(b, j, k) == Ahead(a, order[j], order[k])
  }

  ghost function Through(order: seq<nat>): nat -> nat {
    (k: nat) => if k < |order| then order[k] else k
  }

  lemma RankFollows(a: Entrants, b: Entrants, order: seq<nat>, k: nat)
    requires SameContest(a, b, order) && SamePrecedence(a, b, order)
    requires k < |b| && b[k].Some?
    ensures Rank(b, k) == Rank(a, order[k])
  {
    var f := Through(order);
    var ahead := RivalsAhead(b, k);
    RearrangesOnto(order, |a|);
    forall x: nat ensures x in RivalsAhead(a, order[k]) <==> x in set j | j in ahead :: f(j) {
      if x in RivalsAhead(a, order[k]) {
        assert x in order;
        var j :| 0 <= j < |order| && order[j] == x;
        assert Rivals(b, j, k);
        assert j in ahead && f(j) == x;
      }
    }
    assert RivalsAhead(a, order[k]) == set j | j in ahead :: f(j);
    ImageSize(ahead, f, RivalsAhead(a, order[k]));
  }

  lemma MovedDistinct(s: seq<nat>, order: seq<nat>)
    requires Distinct(s) && Rearranges(order, |order|) && forall x :: 0 <= x < |s| ==> s[x] < |order|
    ensures Distinct(Mapped(s, Through(order)))
  {
  }

  lemma MovedMember(a: Entrants, b: Entrants, order: seq<nat>, k: nat, x: nat)
    requires SameContest(a, b, order) && k < |b| && b[k].Some?
    ensures x in Mapped(Crowd(b, k), Through(order)) <==> x in Crowd(a, order[k])
  {
    var ours, theirs := Crowd(b, k), Crowd(a, order[k]);
    var moved := Mapped(ours, Through(order));
    CrowdIs(b, k);
    CrowdIs(a, order[k]);
    hide Crowd, Ascending, Distinct, LabelOf;
    if x in moved {
      var y :| 0 <= y < |moved| && moved[y] == x;
      assert ours[y] in ours;
      assert Rivals(b, ours[y], k) && x == order[ours[y]];
    }
    if x in theirs {
      RearrangesOnto(order, |a|);
      assert x in order;
      var j :| 0 <= j < |order| && order[j] == x;
      assert Rivals(b, j, k) && j in ours;
      var y :| 0 <= y < |ours| && ours[y] == j;
      assert moved[y] == x;
    }
  }

  lemma CrowdFollows(a: Entrants, b: Entrants, order: seq<nat>, k: nat)
    requires SameContest(a, b, order)
    requires k < |b| && b[k].Some?
    ensures multiset(Mapped(Crowd(b, k), Through(order))) == multiset(Crowd(a, order[k]))
  {
    var ours := Crowd(b, k);
    CrowdIs(b, k);
    CrowdIs(a, order[k]);
    assert forall x :: 0 <= x < |ours| ==> ours[x] in ours;
    MovedDistinct(ours, order);
    hide Crowd, Mapped, SameContest, Rivals, Distinct;
    forall x: nat ensures x in Mapped(ours, Through(order)) <==> x in Crowd(a, order[k]) {
      MovedMember(a, b, order, k, x);
    }
    DistinctPermutation(Mapped(ours, Through(order)), Crowd(a, order[k]));
  }

  lemma CompetingFollows(a: Entrants, b: Entrants, order: seq<nat>, k: nat)
    requires SameContest(a, b, order)
    requires k < |b| && b[k].Some?
    ensures |Crowd(b, k)| == |Crowd(a, order[k])|
    ensures Competing(b, k) == Competing(a, order[k])
  {
    var ours, theirs := Crowd(b, k), Crowd(a, order[k]);
    var moved := Mapped(ours, Through(order));
    CrowdFollows(a, b, order, k);
    assert |multiset(moved)| == |moved| && |multiset(theirs)| == |theirs|;
    MapKeepsMultiset(moved, theirs, EntryAt(a));
    CrowdIs(b, k);
    assert forall x :: 0 <= x < |ours| ==> ours[x] in ours;
    assert Mapped(moved, EntryAt(a)) == Mapped(ours, EntryAt(b));
    hide Crowd, Mapped, Through, SameContest;
    SortForgetsOrder(Mapped(ours, EntryAt(b)), Mapped(theirs, EntryAt(a)), EntryOrder);
  }
}
