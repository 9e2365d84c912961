/**
 Who keeps the plain name (src/core/plan.rs): the ranking of rivals read off a canonicalized
 document, whatever document it came from.
 */
module PlanRanking {
  import opened Basics
  import opened Order
  import opened Hex
  import opened Names
  import opened Permute
  import opened Contest
  import opened PlanDoc
  import opened PlanStable
  import opened PlanNormal
  import opened PlanIdempotent

  // Two actions of a canonicalized document that were ranked against each other.
  ghost predicate RankedTogether(a: Op, b: Op) {
    SameTarget(a, b) && a.conflict.SuffixOrdinal? && b.conflict.SuffixOrdinal?
  }

  // An action with a recorded ordinal was ranked in its set, and shows the set's base.
  lemma RecordedIsRank(env: Env, actions: seq<Action>, out: seq<Action>, order: seq<nat>, k: nat)
    requires Settles(env, actions, out, order) && ConflictsOk(actions) && k < |out|
    requires Contends(out[k].op) && out[k].op.conflict.SuffixOrdinal?
    ensures order[k] < |actions| && Contends(actions[order[k]].op)
    ensures out[k].op.conflict.ordinal == Rank(EntrantsOf(actions), order[k])
    ensures Label(out[k].op.dest.root, Base(out[k].op.dest.parts, out[k].op.conflict))
         == EntrantsOf(actions)[order[k]].value.wants
    ensures out[k].op.dest.parts == NameAt(Base(out[k].op.dest.parts, out[k].op.conflict), out[k].op.conflict.ordinal)
    ensures RankKey(out[k].op.source) == EntrantsOf(actions)[order[k]].value.key
  {
    SettlesOrder(env, actions, out, order);
    hide Settles, ConflictsOk, NameAt, Base, BaseOk, Suffixable, Rank, Competing, Crowd, RankKey;
    SettlesAt(env, actions, out, order, k);
    var i := order[k];
    assert !Lone(actions, i);
    AgainUnlessStranded(actions, i);
    BaseOfName(Again(actions, i).parts, Rank(EntrantsOf(actions), i), Competing(EntrantsOf(actions), i));
    SettlesRoot(env, actions, out, order, k);
  }

  lemma SettlesRoot(env: Env, actions: seq<Action>, out: seq<Action>, order: seq<nat>, k: nat)
    requires Settles(env, actions, out, order) && k < |out| && order[k] < |actions|
    ensures out[k].op.dest.root == actions[order[k]].op.dest.root
  {
    hide Crowd, Rank, Competing, NameAt, Base, Shown, ActionId, Slot;
  }

  lemma RankedAsBefore(env: Env, actions: seq<Action>, out: seq<Action>, order: seq<nat>, p: nat, q: nat)
    requires Settles(env, actions, out, order) && ConflictsOk(actions) && p < |out| && q < |out| && p != q
    requires RankedTogether(out[p].op, out[q].op)
    ensures RanksBefore(out[p].op.source, out[q].op.source) ==> out[p].op.conflict.ordinal < out[q].op.conflict.ordinal
    ensures out[p].op.conflict.ordinal != out[q].op.conflict.ordinal
    ensures order[p] < |actions| && order[q] < |actions| && Rivals(EntrantsOf(actions), order[p], order[q])
  {
    hide Settles, ConflictsOk, NameAt, Base, Crowd, RankKey, Rank, RanksBefore, Ahead;
    var es := EntrantsOf(actions);
    SettlesOrder(env, actions, out, order);
    RecordedIsRank(env, actions, out, order, p);
    RecordedIsRank(env, actions, out, order, q);
    RankKeyReads(out[p].op.source, out[q].op.source);
    var i, j := order[p], order[q];
    assert i != j && Rivals(es, i, j) && Rivals(es, j, i);
    AheadByKey(es, i, j);
    if Ahead(es, i, j) { RankDecides(es, i, j); } else { RankDecides(es, j, i); }
  }

  lemma AheadByKey(es: Entrants, i: nat, j: nat)
    requires i < |es| && j < |es| && es[i].Some? && es[j].Some? && i != j
    ensures KeyLt(es[i].value.key, es[j].value.key) ==> Ahead(es, i, j)
    ensures Ahead(es, i, j) || Ahead(es, j, i)
  {
    KeyTotal(es[i].value.key, es[j].value.key);
  }

  // In every canonicalized document: of two actions ranked together the one whose source comes
  // first, by root, path bytes and file id, has the smaller ordinal; no ordinal occurs twice;
  // and ordinal 0 is the plain name, any other the base with that suffix.
  lemma SourcesDecideRank(env: Env, d: Doc, p: nat, q: nat)
    requires Canonicalize(env, d).Ok?
    requires var actions := Canonicalize(env, d).value.actions;
             p < |actions| && q < |actions| && p != q && RankedTogether(actions[p].op, actions[q].op)
    ensures var actions := Canonicalize(env, d).value.actions;
            var a, b := actions[p].op, actions[q].op;
            && (RanksBefore(a.source, b.source) || RanksBefore(b.source, a.source) ==>
                  (a.conflict.ordinal < b.conflict.ordinal <==> RanksBefore(a.source, b.source)))
            && a.conflict.ordinal != b.conflict.ordinal
            && (a.conflict.ordinal == 0 ==> a.dest.parts == Base(a.dest.parts, a.conflict))
            && Suffixable(Base(a.dest.parts, a.conflict))
            && (a.conflict.ordinal != 0 ==> a.dest.parts == WithSuffix(Base(a.dest.parts, a.conflict), a.conflict.ordinal))
  {
    assert ConflictsOk(RootPass(env, d).actions);
    var out := Canonical(env, d).actions;
    var order := CanonicalSettles(env, d);
    hide Settles, ConflictsOk, Canonical, RootPass, Base, RanksBefore;
    RankedAsBefore(env, RootPass(env, d).actions, out, order, p, q);
    RankedAsBefore(env, RootPass(env, d).actions, out, order, q, p);
    RecordedSuffix(env, RootPass(env, d).actions, out, order, p);
  }

  lemma RecordedSuffix(env: Env, actions: seq<Action>, out: seq<Action>, order: seq<nat>, k: nat)
    requires Settles(env, actions, out, order) && ConflictsOk(actions) && k < |out|
    requires Contends(out[k].op) && out[k].op.conflict.SuffixOrdinal?
    ensures var op := out[k].op;
            && Suffixable(Base(op.dest.parts, op.conflict))
            && (op.conflict.ordinal == 0 ==> op.dest.parts == Base(op.dest.parts, op.conflict))
            && (op.conflict.ordinal != 0 ==> op.dest.parts == WithSuffix(Base(op.dest.parts, op.conflict), op.conflict.ordinal))
  {
    RecordedIsRank(env, actions, out, order, k);
    hide Settles, ConflictsOk, Base, BaseOk, Rank, Competing, Crowd, RankKey, Suffixable, WithSuffix;
    SettlesAt(env, actions, out, order, k);
    BaseOfName(Again(actions, order[k]).parts, Rank(EntrantsOf(actions), order[k]), Competing(EntrantsOf(actions), order[k]));
  }

  // Position k of the list before canonicalization ends somewhere after it.
  lemma SomewhereAfter(env: Env, actions: seq<Action>, out: seq<Action>, order: seq<nat>, x: nat) returns (k: nat)
    requires Settles(env, actions, out, order) && x < |actions|
    ensures k < |out| && order[k] == x
  {
    SettlesOrder(env, actions, out, order);
    hide Settles;
    RearrangesOnto(order, |actions|);
    assert x in order;
    k :| 0 <= k < |order| && order[k] == x;
  }

  // The first of a set keeps the plain name: ordinal 0, and it is the only one without a suffix.
  lemma FirstKeepsName(env: Env, d: Doc, p: nat)
    requires Canonicalize(env, d).Ok?
    requires var actions := Canonicalize(env, d).value.actions;
             && p < |actions| && Contends(actions[p].op) && actions[p].op.conflict.SuffixOrdinal?
             && forall q :: 0 <= q < |actions| && q != p && RankedTogether(actions[q].op, actions[p].op) ==>
                  RanksBefore(actions[p].op.source, actions[q].op.source)
    ensures var op := Canonicalize(env, d).value.actions[p].op;
            op.conflict.ordinal == 0 && op.dest.parts == Base(op.dest.parts, op.conflict)
  {
    assert ConflictsOk(RootPass(env, d).actions);
    var actions, out := RootPass(env, d).actions, Canonical(env, d).actions;
    var order := CanonicalSettles(env, d);
    hide Settles, ConflictsOk, Canonical, RootPass, Base, RanksBefore, Rank, RankedTogether, Ahead, RankKey;
    RecordedIsRank(env, actions, out, order, p);
    RecordedSuffix(env, actions, out, order, p);
    var es := EntrantsOf(actions);
    if x :| x in RivalsAhead(es, order[p]) {
      var q := SomewhereAfter(env, actions, out, order, x);
      AheadIsRanked(env, actions, out, order, p, q);
      assert false;
    }
    RankOfFirst(es, order[p]);
  }

  lemma NotAheadOfItself(es: Entrants, i: nat)
    requires i < |es|
    ensures !Ahead(es, i, i)
  {
  }

  lemma RankOfFirst(es: Entrants, i: nat)
    requires i < |es| && RivalsAhead(es, i) == {}
    ensures Rank(es, i) == 0
  {
  }

  // A rival ahead is ranked with it and does not come after it.
  lemma AheadIsRanked(env: Env, actions: seq<Action>, out: seq<Action>, order: seq<nat>, p: nat, q: nat)
    requires Settles(env, actions, out, order) && ConflictsOk(actions) && p < |out| && q < |out|
    requires Contends(out[p].op) && out[p].op.conflict.SuffixOrdinal?
    requires order[p] < |actions| && order[q] < |actions|
    requires order[q] in RivalsAhead(EntrantsOf(actions), order[p])
    ensures q != p && RankedTogether(out[q].op, out[p].op) && !RanksBefore(out[p].op.source, out[q].op.source)
  {
    var es := EntrantsOf(actions);
    assert Rivals(es, order[q], order[p]) && Ahead(es, order[q], order[p]);
    if q == p { NotAheadOfItself(es, order[p]); }
    hide Settles, ConflictsOk, Base, BaseOk, RanksBefore, Rank, RankKey, NameAt, Competing, Suffixable, Crowd;
    SettlesAt(env, actions, out, order, q);
    RivalsShareCrowd(es, order[q], order[p]);
    assert !Lone(actions, order[q]);
    RecordedIsRank(env, actions, out, order, p);
    RecordedIsRank(env, actions, out, order, q);
    RankKeyReads(out[p].op.source, out[q].op.source);
    if KeyLt(es[order[p]].value.key, es[order[q]].value.key) {
      AheadByKey(es, order[p], order[q]);
      AheadAsymmetric(es, order[p], order[q]);
    }
  }

  // The actions ranked together with action p, itself among them.
  ghost function RankedWith(actions: seq<Action>, p: nat): set<nat>
    requires p < |actions|
  {
    set q: nat | q < |actions| && RankedTogether(actions[q].op, actions[p].op)
  }

  // Rivals before are ranked together after, and show the same entries.
  lemma RankedAreRivals(env: Env, actions: seq<Action>, out: seq<Action>, order: seq<nat>, p: nat, q: nat)
    requires Settles(env, actions, out, order) && ConflictsOk(actions) && p < |out| && q < |out|
    requires Contends(out[p].op) && out[p].op.conflict.SuffixOrdinal?
    ensures |order| == |out| == |actions|
    ensures order[p] < |actions| && order[q] < |actions| && EntrantsOf(actions)[order[p]].Some?
    ensures q in RankedWith(out, p) <==> order[q] in RivalSet(EntrantsOf(actions), order[p])
    ensures q in RankedWith(out, p) ==> EntryAt(EntrantsOf(actions))(order[q]) == KeyOf(out[q].op.source)
  {
    hide Settles, ConflictsOk, Base, BaseOk, Rank, RankKey, NameAt, Competing, Suffixable, Crowd;
    var es := EntrantsOf(actions);
    SettlesOrder(env, actions, out, order);
    RecordedIsRank(env, actions, out, order, p);
    SettlesAt(env, actions, out, order, q);
    if order[q] in RivalSet(es, order[p]) {
      RivalsShareCrowd(es, order[q], order[p]);
      SettlesAt(env, actions, out, order, p);
      assert !Lone(actions, order[q]);
      RecordedIsRank(env, actions, out, order, q);
    }
    if q in RankedWith(out, p) { RecordedIsRank(env, actions, out, order, q); }
  }

  lemma SizeThrough(order: seq<nat>, n: nat, ours: set<nat>, theirs: set<nat>)
    requires Rearranges(order, n) && (forall q :: q in ours ==> q < n) && (forall j :: j in theirs ==> j < n)
    requires forall q :: 0 <= q < n ==> (q in ours <==> order[q] in theirs)
    ensures |ours| == |theirs|
  {
    var f := Through(order);
    assert forall q: nat :: q < n ==> f(q) == order[q];
    RearrangesOnto(order, n);
    ThroughInjective(order, n, ours);
    forall j | j in theirs ensures exists q :: q in ours && f(q) == j {
      assert j in order;
      var q :| 0 <= q < n && order[q] == j;
      assert q in ours;
    }
    assert forall q :: q in ours ==> f(q) in theirs;
    hide *;
    assert theirs == set q | q in ours :: f(q);
    ImageSize(ours, f, theirs);
  }

  lemma ThroughInjective(order: seq<nat>, n: nat, ours: set<nat>)
    requires Rearranges(order, n) && forall q :: q in ours ==> q < n
    ensures forall x, y :: x in ours && y in ours && Through(order)(x) == Through(order)(y) ==> x == y
  {
  }

  lemma RankedOnto(env: Env, actions: seq<Action>, out: seq<Action>, order: seq<nat>, p: nat)
    requires Settles(env, actions, out, order) && ConflictsOk(actions) && p < |out|
    requires Contends(out[p].op) && out[p].op.conflict.SuffixOrdinal?
    ensures |order| == |actions| && order[p] < |actions|
    ensures |RankedWith(out, p)| == |RivalSet(EntrantsOf(actions), order[p])|
  {
    var es := EntrantsOf(actions);
    SettlesOrder(env, actions, out, order);
    RankedAreRivals(env, actions, out, order, p, p);
    var ours, theirs := RankedWith(out, p), RivalSet(es, order[p]);
    assert forall q :: q in ours ==> q < |out|;
    assert forall j :: j in theirs ==> j < |actions|;
    forall q | 0 <= q < |out| ensures q in ours <==> order[q] in theirs {
      hide *;
      RankedAreRivals(env, actions, out, order, p, q);
    }
    hide *;
    SizeThrough(order, |actions|, ours, theirs);
  }

  lemma RankedEntries(env: Env, actions: seq<Action>, out: seq<Action>, order: seq<nat>, p: nat, e: EntryKey)
    requires Settles(env, actions, out, order) && ConflictsOk(actions) && p < |out|
    requires Contends(out[p].op) && out[p].op.conflict.SuffixOrdinal?
    ensures |order| == |out| == |actions| && order[p] < |actions|
    ensures (exists q :: q in RankedWith(out, p) && KeyOf(out[q].op.source) == e)
       <==> (exists j: nat :: j in RivalSet(EntrantsOf(actions), order[p]) && EntryAt(EntrantsOf(actions))(j) == e)
  {
    var es := EntrantsOf(actions);
    assert forall q :: q in RankedWith(out, p) ==> q < |out| && !out[q].op.Mkdir?;
    assert forall j :: j in RivalSet(es, order[p]) ==> j < |actions| by {
      RankedAreRivals(env, actions, out, order, p, p);
    }
    hide *;
    RankedAreRivals(env, actions, out, order, p, p);
    if q :| q in RankedWith(out, p) && KeyOf(out[q].op.source) == e {
      RankedAreRivals(env, actions, out, order, p, q);
    }
    if j: nat :| j in RivalSet(es, order[p]) && EntryAt(es)(j) == e {
      var q := SomewhereAfter(env, actions, out, order, j);
      RankedAreRivals(env, actions, out, order, p, q);
    }
  }

  // The note of a ranked action lists the entries of all that were ranked together, ascending
  // by root and file, one for each.
  lemma NoteListsRivals(env: Env, d: Doc, p: nat)
    requires Canonicalize(env, d).Ok?
    requires var actions := Canonicalize(env, d).value.actions;
             p < |actions| && Contends(actions[p].op) && actions[p].op.conflict.SuffixOrdinal?
    ensures var actions := Canonicalize(env, d).value.actions;
            var c := actions[p].op.conflict.competing;
            && |c| == |RankedWith(actions, p)|
            && (forall e :: e in c <==> exists q :: q in RankedWith(actions, p) && KeyOf(actions[q].op.source) == e)
            && forall x, y :: 0 <= x < y < |c| ==> EntryLe(c[x], c[y])
  {
    assert ConflictsOk(RootPass(env, d).actions);
    var actions, out := RootPass(env, d).actions, Canonical(env, d).actions;
    var order := CanonicalSettles(env, d);
    NoteRead(env, actions, out, order, p);
    hide Settles, ConflictsOk, Canonical, RootPass, RankedWith, EntryLe;
  }

  lemma NoteRead(env: Env, actions: seq<Action>, out: seq<Action>, order: seq<nat>, p: nat)
    requires Settles(env, actions, out, order) && ConflictsOk(actions) && p < |out|
    requires Contends(out[p].op) && out[p].op.conflict.SuffixOrdinal?
    ensures var c := out[p].op.conflict.competing;
            && |c| == |RankedWith(out, p)|
            && (forall e :: e in c <==> exists q :: q in RankedWith(out, p) && KeyOf(out[q].op.source) == e)
            && forall x, y :: 0 <= x < y < |c| ==> EntryLe(c[x], c[y])
  {
    var es := EntrantsOf(actions);
    RankedOnto(env, actions, out, order, p);
    RankedAreRivals(env, actions, out, order, p, p);
    CompetingReads(es, order[p]);
    hide Settles, ConflictsOk, RankedWith, RivalSet, EntryAt, Competing, Rank, NameAt, Again, Suffixable, Crowd, EntrantOf;
    SettlesAt(env, actions, out, order, p);
    var c := out[p].op.conflict.competing;
    assert c == Competing(es, order[p]);
    forall e ensures e in c <==> exists q :: q in RankedWith(out, p) && KeyOf(out[q].op.source) == e {
      RankedEntries(env, actions, out, order, p, e);
    }
  }
}
