/**
 When canonicalizing a plan twice is the same as canonicalizing it once (src/core/plan.rs).

 The source calls the operation idempotent. It is, except for two kinds of input: an action
 left alone on its base keeps a suffixed name whose suffix is no longer on record, and a
 move and an extract of one entry are ranked in one order and listed in the other.
 */
module PlanIdempotent {
  import opened Basics
  import opened Order
  import opened Hex
  import opened Names
  import opened Permute
  import opened Contest
  import opened PlanDoc
  import opened PlanStable

  // ----- the two clashes

  predicate Lone(actions: seq<Action>, i: nat)
    requires i < |actions|
  {
    Contends(actions[i].op) && |Crowd(EntrantsOf(actions), i)| == 1
  }

  // The label an action will have on a second pass.
  function Again(actions: seq<Action>, i: nat): Label
    requires i < |actions| && Contends(actions[i].op)
  {
    var dest := actions[i].op.dest;
    if Lone(actions, i) then Label(dest.root, dest.parts) else Label(dest.root, Base(dest.parts, actions[i].op.conflict))
  }

  // Alone, with a suffix still on its name.
  predicate Stranded(actions: seq<Action>, i: nat)
    requires i < |actions|
  {
    Lone(actions, i) && PriorOrdinal(actions[i].op.conflict) >= 1
  }

  // A stranded name is what another action is called or wants to be called.
  predicate Clashing(actions: seq<Action>, i: nat, j: nat)
    requires i < |actions| && j < |actions|
  {
    i != j && Stranded(actions, i) && Contends(actions[j].op) && Again(actions, i) == Again(actions, j)
  }

  predicate StaleClash(actions: seq<Action>) {
    exists i: nat, j: nat :: i < |actions| && j < |actions| && Clashing(actions, i, j)
  }

  // A move and, later in the list, an extract of the same entry, rivals for one destination.
  predicate Twins(actions: seq<Action>, i: nat, j: nat)
    requires i < |actions| && j < |actions|
  {
    && i < j && actions[i].op.Move? && actions[j].op.Extract?
    && Rivals(EntrantsOf(actions), i, j)
    && RankKey(actions[i].op.source) == RankKey(actions[j].op.source)
    && Joined(actions[i].op.source.parts) != []
  }

  predicate TwinClash(actions: seq<Action>) {
    exists i: nat, j: nat :: i < |actions| && j < |actions| && Twins(actions, i, j)
  }


  // ----- names

  lemma SuffixComesOff(c: Text, n: nat)
    requires IsHex(c)
    ensures var t := ToHex(AddSuffix(Decode(c), n));
            IsHex(t) && StripSuffix(Decode(t), n) == Some(Decode(c)) && ToHex(Decode(c)) == c
  {
    hide AddSuffix, StripSuffix;
    UnhexInvertsToHex(AddSuffix(Decode(c), n));
    ToHexInvertsUnhex(c);
    StripInvertsAdd(Decode(c), n);
  }

  lemma BaseOfName(base: seq<Text>, rank: nat, competing: seq<EntryKey>)
    requires Suffixable(base)
    ensures BaseOk(NameAt(base, rank), SuffixOrdinal(rank, competing))
    ensures Base(NameAt(base, rank), SuffixOrdinal(rank, competing)) == base
  {
    hide AddSuffix, StripSuffix, ToHex, Decode, IsHex;
    if rank > 0 {
      var n := |base| - 1;
      SuffixComesOff(base[n], rank);
      assert base == base[..n] + [base[n]];
    }
  }

  // What the second pass reads off an action the first pass has settled.
  lemma SecondEntrant(env: Env, actions: seq<Action>, i: nat, k: nat)
    requires i < |actions| && Contends(actions[i].op) && EntrantOk(actions[i].op) && SuffixesOk(actions, i)
    ensures var out := StampId(env, Dressed(env, Settled(actions, i)), k).op;
            && Contends(out) && EntrantOk(out)
            && EntrantOf(StampId(env, Dressed(env, Settled(actions, i)), k))
               == Some(EntrantOf(actions[i]).value.(wants := Again(actions, i)))
            && (Lone(actions, i) ==> out.conflict == NoConflict)
            && (!Lone(actions, i) ==>
                  && Suffixable(Again(actions, i).parts)
                  && out.dest.parts == NameAt(Again(actions, i).parts, Rank(EntrantsOf(actions), i))
                  && out.conflict == SuffixOrdinal(Rank(EntrantsOf(actions), i), Competing(EntrantsOf(actions), i)))
  {
    var a, es := actions[i], EntrantsOf(actions);
    var base := Base(a.op.dest.parts, a.op.conflict);
    hide ActionId, Slot, Shown, Rank, Competing, Crowd, Suffixable, Base, BaseOk, NameAt, Joined;
    if |Crowd(es, i)| == 1 {
      UnrecordedBase(a.op.dest.parts);
    } else {
      BaseOfName(base, Rank(es, i), Competing(es, i));
    }
  }

  lemma UnrecordedBase(parts: seq<Text>)
    ensures Base(parts, NoConflict) == parts && BaseOk(parts, NoConflict)
  {
  }

  // ----- rivalry on the second pass

  lemma RivalsShareCrowd(es: Entrants, i: nat, j: nat)
    requires i < |es| && j < |es| && Rivals(es, i, j)
    ensures Crowd(es, i) == Crowd(es, j)
    ensures i != j ==> |Crowd(es, i)| != 1
  {
    CrowdIs(es, i);
    if i != j {
      assert i in Crowd(es, i) && j in Crowd(es, i);
    }
  }

  lemma AgainRivals(actions: seq<Action>, i: nat, j: nat)
    requires i < |actions| && j < |actions| && Contends(actions[i].op) && Contends(actions[j].op)
    requires !StaleClash(actions)
    ensures Again(actions, i) == Again(actions, j) <==> Rivals(EntrantsOf(actions), i, j)
  {
    var es := EntrantsOf(actions);
    if i != j {
      if Rivals(es, i, j) {
        RivalsShareCrowd(es, i, j);
      } else {
        hide Crowd;
        assert !Clashing(actions, i, j) && !Clashing(actions, j, i);
        if !Stranded(actions, i) && !Stranded(actions, j) {
          AgainUnlessStranded(actions, i);
          AgainUnlessStranded(actions, j);
        }
      }
    }
  }

  lemma AgainUnlessStranded(actions: seq<Action>, i: nat)
    requires i < |actions| && Contends(actions[i].op) && !Stranded(actions, i)
    ensures Again(actions, i) == EntrantsOf(actions)[i].value.wants
  {
    hide Crowd;
  }

  // ----- the second contest

  // `out` is `actions` after one canonicalization.
  ghost predicate Settles(env: Env, actions: seq<Action>, out: seq<Action>, order: seq<nat>) {
    && |out| == |actions| && InStableOrder(actions, ActionKey, order)
    && forall k :: 0 <= k < |out| ==> out[k] == StampId(env, Dressed(env, Settled(actions, order[k])), k)
  }

  lemma SettlesAt(env: Env, actions: seq<Action>, out: seq<Action>, order: seq<nat>, k: nat)
    requires Settles(env, actions, out, order) && ConflictsOk(actions) && k < |out|
    ensures order[k] < |actions| && Contends(out[k].op) == Contends(actions[order[k]].op) && EntrantOk(out[k].op)
    ensures Contends(out[k].op) ==>
              && EntrantOf(out[k]) == Some(EntrantOf(actions[order[k]]).value.(wants := Again(actions, order[k])))
              && (Lone(actions, order[k]) ==> out[k].op.conflict == NoConflict)
              && (!Lone(actions, order[k]) ==>
                    && Suffixable(Again(actions, order[k]).parts)
                    && out[k].op.dest.parts
                       == NameAt(Again(actions, order[k]).parts, Rank(EntrantsOf(actions), order[k]))
                    && out[k].op.conflict
                       == SuffixOrdinal(Rank(EntrantsOf(actions), order[k]), Competing(EntrantsOf(actions), order[k])))
  {
    var i := order[k];
    assert EntrantOk(actions[i].op) && SuffixesOk(actions, i);
    assert out[k] == StampId(env, Dressed(env, Settled(actions, i)), k);
    if Contends(actions[i].op) {
      SecondEntrant(env, actions, i, k);
    } else {
      assert !Contends(out[k].op);
    }
  }

  lemma SecondContest(env: Env, actions: seq<Action>, out: seq<Action>, order: seq<nat>)
    requires Settles(env, actions, out, order) && ConflictsOk(actions) && !StaleClash(actions)
    ensures SameContest(EntrantsOf(actions), EntrantsOf(out), order)
  {
    hide Settles, ConflictsOk, StaleClash, Again, Lone, NameAt, Rank, Competing, Suffixable;
    var a, b := EntrantsOf(actions), EntrantsOf(out);
    assert Settles(env, actions, out, order);
    SettlesOrder(env, actions, out, order);
    forall k | 0 <= k < |b|
      ensures b[k].Some? == a[order[k]].Some?
      ensures b[k].Some? ==> b[k].value.entry == a[order[k]].value.entry
    {
      SettlesAt(env, actions, out, order, k);
    }
    forall j, k | 0 <= j < |b| && 0 <= k < |b| ensures Rivals(b, j, k) == Rivals(a, order[j], order[k]) {
      SettlesAt(env, actions, out, order, j);
      SettlesAt(env, actions, out, order, k);
      if b[j].Some? && b[k].Some? { AgainRivals(actions, order[j], order[k]); }
    }
  }

  lemma SettlesOrder(env: Env, actions: seq<Action>, out: seq<Action>, order: seq<nat>)
    requires Settles(env, actions, out, order)
    ensures |out| == |actions| && InStableOrder(actions, ActionKey, order) && Rearranges(order, |actions|)
  {
  }

  // Listing order decides ties between rivals as the first pass did, twins apart.
  lemma TieBreak(actions: seq<Action>, i: nat, j: nat)
    requires i < |actions| && j < |actions| && i != j && Rivals(EntrantsOf(actions), i, j)
    requires RankKey(actions[i].op.source) == RankKey(actions[j].op.source)
    requires !Twins(actions, i, j) && !Twins(actions, j, i)
    ensures Precedes(actions, ActionKey, i, j) <==> i < j
  {
    hide Joined, Base;
    assert Contends(actions[i].op) && Contends(actions[j].op);
    var x, y := ActionKey(actions[i]), ActionKey(actions[j]);
    assert x.path == y.path || x.path == [] || y.path == [];
    KeyTotal(x, x);
  }

  // Twins are listed against their ranks.
  lemma TwinsAreListedAgainst(actions: seq<Action>, i: nat, j: nat)
    requires i < |actions| && j < |actions| && Twins(actions, i, j)
    ensures Precedes(actions, ActionKey, j, i)
  {
    hide Joined, Base;
  }

  lemma SecondPrecedence(env: Env, actions: seq<Action>, out: seq<Action>, order: seq<nat>)
    requires Settles(env, actions, out, order) && ConflictsOk(actions) && !StaleClash(actions) && !TwinClash(actions)
    requires SameContest(EntrantsOf(actions), EntrantsOf(out), order)
    ensures SamePrecedence(EntrantsOf(actions), EntrantsOf(out), order)
  {
    var a, b := EntrantsOf(actions), EntrantsOf(out);
    SettlesOrder(env, actions, out, order);
    forall j: nat, k: nat | j < |b| && k < |b| && Rivals(b, j, k)
      ensures Ahead(b, j, k) == Ahead(a, order[j], order[k])
    {
      SamePlace(env, actions, out, order, j, k);
    }
  }

  lemma SamePlace(env: Env, actions: seq<Action>, out: seq<Action>, order: seq<nat>, j: nat, k: nat)
    requires Settles(env, actions, out, order) && ConflictsOk(actions) && !TwinClash(actions)
    requires SameContest(EntrantsOf(actions), EntrantsOf(out), order)
    requires j < |out| && k < |out| && Rivals(EntrantsOf(out), j, k)
    ensures Ahead(EntrantsOf(out), j, k) == Ahead(EntrantsOf(actions), order[j], order[k])
  {
    hide Settles, ConflictsOk, Again, Lone, NameAt, Rank, Competing, Suffixable, KeyLe;
    SettlesOrder(env, actions, out, order);
    var a := EntrantsOf(actions);
    SettlesAt(env, actions, out, order, j);
    SettlesAt(env, actions, out, order, k);
    var x, y := order[j], order[k];
    assert Rivals(a, x, y);
    if j != k && a[x].value.key == a[y].value.key {
      assert !Twins(actions, x, y) && !Twins(actions, y, x);
      TieBreak(actions, x, y);
      if j < k {
        assert Precedes(actions, ActionKey, x, y);
      } else {
        assert Precedes(actions, ActionKey, y, x);
        PrecedesAsymmetric(actions, ActionKey, y, x);
      }
    }
  }

  // ----- without a clash the second pass repeats the first

  lemma SettledAgain(env: Env, actions: seq<Action>, out: seq<Action>, order: seq<nat>, k: nat)
    requires Settles(env, actions, out, order) && ConflictsOk(actions) && k < |out|
    requires SameContest(EntrantsOf(actions), EntrantsOf(out), order)
    requires SamePrecedence(EntrantsOf(actions), EntrantsOf(out), order)
    ensures Settled(out, k) == out[k] && EntrantOk(out[k].op) && SuffixesOk(out, k)
  {
    hide Settles, ConflictsOk, NameAt, Rank, Competing, Suffixable, Base, BaseOk, SameContest, SamePrecedence;
    SettlesOrder(env, actions, out, order);
    SettlesAt(env, actions, out, order, k);
    var a, b := EntrantsOf(actions), EntrantsOf(out);
    if Contends(out[k].op) {
      RankFollows(a, b, order, k);
      CompetingFollows(a, b, order, k);
      hide Crowd, Joined;
      if Lone(actions, order[k]) {
        assert |Crowd(b, k)| == 1;
      } else {
        assert |Crowd(b, k)| != 1;
        assert Base(out[k].op.dest.parts, out[k].op.conflict) == Again(actions, order[k]).parts;
      }
    }
  }

  lemma NoClashStays(env: Env, actions: seq<Action>, out: seq<Action>, order: seq<nat>)
    requires Settles(env, actions, out, order) && ConflictsOk(actions)
    requires !StaleClash(actions) && !TwinClash(actions)
    ensures ConflictsOk(out) && ConflictPass(out) == out
  {
    hide Settles, StaleClash, TwinClash, Settled, EntrantOk, SuffixesOk;
    SecondContest(env, actions, out, order);
    SecondPrecedence(env, actions, out, order);
    forall k | 0 <= k < |out| ensures Settled(out, k) == out[k] && EntrantOk(out[k].op) && SuffixesOk(out, k) {
      SettledAgain(env, actions, out, order, k);
    }
  }

  // ----- with one it does not

  lemma SettledNote(actions: seq<Action>, k: nat)
    requires k < |actions| && Contends(actions[k].op)
    ensures var es := EntrantsOf(actions);
            Settled(actions, k).op.conflict
            == if |Crowd(es, k)| == 1 then NoConflict else SuffixOrdinal(Rank(es, k), Competing(es, k))
  {
  }

  lemma StaleClashShows(env: Env, actions: seq<Action>, out: seq<Action>, order: seq<nat>)
    requires Settles(env, actions, out, order) && ConflictsOk(actions) && StaleClash(actions)
    ensures ConflictPass(out) != out
  {
    var i: nat, j: nat :| i < |actions| && j < |actions| && Clashing(actions, i, j);
    hide Settles, StaleClash, Again, Joined, Base, Rank, Competing, NameAt, Crowd, Settled, ConflictsOk, Suffixable;
    SettlesOrder(env, actions, out, order);
    RearrangesOnto(order, |actions|);
    assert i in order && j in order;
    var x: nat :| x < |order| && order[x] == i;
    var y: nat :| y < |order| && order[y] == j;
    SettlesAt(env, actions, out, order, x);
    SettlesAt(env, actions, out, order, y);
    RivalsShareCrowd(EntrantsOf(out), x, y);
    SettledNote(out, x);
    assert ConflictPass(out)[x] == Settled(out, x);
  }

  lemma AheadRanksFirst(es: Entrants, i: nat, j: nat)
    requires i < |es| && j < |es| && Rivals(es, i, j) && Ahead(es, i, j)
    ensures Rank(es, i) < Rank(es, j)
  {
    KeyTotal(es[i].value.key, es[i].value.key);
    forall x: nat | x in RivalsAhead(es, i) ensures x in RivalsAhead(es, j) {
      AheadTransitive(es, x, i, j);
    }
    assert i !in RivalsAhead(es, i) && i in RivalsAhead(es, j);
    SubsetSize(RivalsAhead(es, i) + {i}, RivalsAhead(es, j));
  }

  lemma AheadTransitive(es: Entrants, x: nat, y: nat, z: nat)
    requires x < |es| && y < |es| && z < |es| && Ahead(es, x, y) && Ahead(es, y, z)
    ensures Ahead(es, x, z)
  {
    var a, b, c := es[x].value.key, es[y].value.key, es[z].value.key;
    KeyTotal(a, a);
    hide KeyLe;
    if KeyLe(a, b) && KeyLe(b, c) {
      KeyTransitive(a, b, c);
      if a == c { KeyAntisymmetric(a, b); }
    }
  }

  lemma TwinClashShows(env: Env, actions: seq<Action>, out: seq<Action>, order: seq<nat>)
    requires Settles(env, actions, out, order) && ConflictsOk(actions) && !StaleClash(actions) && TwinClash(actions)
    ensures ConflictPass(out) != out
  {
    var i: nat, j: nat :| i < |actions| && j < |actions| && Twins(actions, i, j);
    SecondContest(env, actions, out, order);
    SettlesOrder(env, actions, out, order);
    RearrangesOnto(order, |actions|);
    assert i in order && j in order;
    var x: nat :| x < |order| && order[x] == i;
    var y: nat :| y < |order| && order[y] == j;
    TwinsAreListedAgainst(actions, i, j);
    hide KeyLe, StaleClash, TwinClash, Settles, ConflictsOk, Twins, ActionKey;
    ListedFirst(actions, ActionKey, order, y, x);
    TwinRanksSwap(env, actions, out, order, x, y);
  }

  lemma SwappedNotes(a: Entrants, b: Entrants, i: nat, j: nat, x: nat, y: nat)
    requires i < |a| && j < |a| && x < |b| && y < |b|
    requires Rivals(a, i, j) && Ahead(a, i, j) && Rivals(b, y, x) && Ahead(b, y, x)
    ensures Rank(a, i) != Rank(b, x) || Rank(a, j) != Rank(b, y)
  {
    hide Ahead, Rank;
    AheadRanksFirst(a, i, j);
    AheadRanksFirst(b, y, x);
  }

  lemma TwinRanksSwap(env: Env, actions: seq<Action>, out: seq<Action>, order: seq<nat>, x: nat, y: nat)
    requires Settles(env, actions, out, order) && ConflictsOk(actions)
    requires SameContest(EntrantsOf(actions), EntrantsOf(out), order)
    requires y < x < |out| && Twins(actions, order[x], order[y])
    ensures ConflictPass(out) != out
  {
    hide Settles, ConflictsOk, Again, Joined, Base, Rank, Competing, NameAt, KeyLe, Settled, Crowd, Suffixable;
    var a, b, i, j := EntrantsOf(actions), EntrantsOf(out), order[x], order[y];
    SettlesAt(env, actions, out, order, x);
    SettlesAt(env, actions, out, order, y);
    assert Rivals(b, y, x);
    RivalsShareCrowd(a, i, j);
    RivalsShareCrowd(b, y, x);
    SwappedNotes(a, b, i, j, x, y);
    SettledNote(out, x);
    SettledNote(out, y);
    assert ConflictPass(out)[x] == Settled(out, x) && ConflictPass(out)[y] == Settled(out, y);
  }

  // ----- the clashes are visible before any root is renumbered

  // Renumbering changes nothing in an action but its root ids, and those injectively.
  lemma RemapAt(env: Env, p: Doc, i: nat)
    requires i < |p.actions|
    ensures |RootPass(env, p).actions| == |p.actions|
    ensures RootPass(env, p).actions[i].op == RemapOp(p.actions[i].op, SortedRoots(p.roots))
  {
  }

  lemma RemapApart(p: Doc, i: nat, j: nat)
    requires RootsOk(p) && i < |p.actions| && j < |p.actions|
    ensures var ids, a, b := SortedRoots(p.roots), p.actions[i].op, p.actions[j].op;
            && (NewId(ids, a.dest.root) == NewId(ids, b.dest.root) ==> a.dest.root == b.dest.root)
            && (Contends(a) && Contends(b) && NewId(ids, a.source.root) == NewId(ids, b.source.root) ==>
                  a.source.root == b.source.root)
  {
    var ids, a, b := SortedRoots(p.roots), p.actions[i].op, p.actions[j].op;
    assert OpKnown(p.roots, a) && OpKnown(p.roots, b);
    hide SortedRoots, HasRoot, RefsKnown;
    if NewId(ids, a.dest.root) == NewId(ids, b.dest.root) { NewIdInjective(p.roots, a.dest.root, b.dest.root); }
    if Contends(a) && Contends(b) && NewId(ids, a.source.root) == NewId(ids, b.source.root) {
      NewIdInjective(p.roots, a.source.root, b.source.root);
    }
  }

  lemma RemapKeepsRivals(env: Env, p: Doc, i: nat, j: nat)
    requires RootsOk(p) && i < |p.actions| && j < |p.actions|
    ensures |RootPass(env, p).actions| == |p.actions|
    ensures Rivals(EntrantsOf(p.actions), i, j) == Rivals(EntrantsOf(RootPass(env, p).actions), i, j)
  {
    hide RootsOk, RootPass, SortedRoots, Base;
    RemapApart(p, i, j);
    RemapAt(env, p, i);
    RemapAt(env, p, j);
  }

  lemma RemapKeepsCrowd(env: Env, p: Doc, i: nat)
    requires RootsOk(p) && i < |p.actions| && Contends(p.actions[i].op)
    ensures |RootPass(env, p).actions| == |p.actions| && Contends(RootPass(env, p).actions[i].op)
    ensures Crowd(EntrantsOf(p.actions), i) == Crowd(EntrantsOf(RootPass(env, p).actions), i)
  {
    hide RootsOk, RootPass, Crowd;
    RemapAt(env, p, i);
    var a, b := EntrantsOf(p.actions), EntrantsOf(RootPass(env, p).actions);
    CrowdIs(a, i);
    CrowdIs(b, i);
    hide Rivals;
    forall j: nat | j < |a| ensures Rivals(a, j, i) == Rivals(b, j, i) {
      RemapKeepsRivals(env, p, j, i);
    }
    AscendingUnique(Crowd(a, i), Crowd(b, i));
  }

  lemma RemapKeepsClashing(env: Env, p: Doc, i: nat, j: nat)
    requires RootsOk(p) && i < |p.actions| && j < |p.actions|
    ensures |RootPass(env, p).actions| == |p.actions|
    ensures Clashing(p.actions, i, j) == Clashing(RootPass(env, p).actions, i, j)
  {
    hide RootsOk, RootPass, SortedRoots, Base, Crowd;
    RemapApart(p, i, j);
    RemapAt(env, p, i);
    RemapAt(env, p, j);
    if Contends(p.actions[i].op) && Contends(p.actions[j].op) {
      RemapKeepsCrowd(env, p, i);
      RemapKeepsCrowd(env, p, j);
    }
  }

  lemma RemapKeepsTwins(env: Env, p: Doc, i: nat, j: nat)
    requires RootsOk(p) && i < |p.actions| && j < |p.actions|
    ensures |RootPass(env, p).actions| == |p.actions|
    ensures Twins(p.actions, i, j) == Twins(RootPass(env, p).actions, i, j)
  {
    hide RootsOk, RootPass, SortedRoots, Joined;
    RemapApart(p, i, j);
    RemapAt(env, p, i);
    RemapAt(env, p, j);
    RemapKeepsRivals(env, p, i, j);
    hide Rivals;
  }

  lemma RemapKeepsClashes(env: Env, p: Doc)
    requires RootsOk(p)
    ensures StaleClash(p.actions) == StaleClash(RootPass(env, p).actions)
    ensures TwinClash(p.actions) == TwinClash(RootPass(env, p).actions)
  {
    var before, after := p.actions, RootPass(env, p).actions;
    assert |before| == |after|;
    hide RootsOk, RootPass, Clashing, Twins;
    forall i: nat, j: nat | i < |before| && j < |before|
      ensures Twins(before, i, j) == Twins(after, i, j) && Clashing(before, i, j) == Clashing(after, i, j)
    {
      RemapKeepsTwins(env, p, i, j);
      RemapKeepsClashing(env, p, i, j);
    }
  }

  // ----- the result

  lemma CanonicalSettles(env: Env, p: Doc) returns (order: seq<nat>)
    ensures Settles(env, RootPass(env, p).actions, Canonical(env, p).actions, order)
  {
    order := ActionsFrom(env, p);
    hide RootPass, Canonical, Dressed, Settled, StampId, ActionKey;
  }

  // Canonicalizing twice is canonicalizing once exactly when the document holds neither clash.
  lemma IdempotentExactly(env: Env, p: Doc)
    requires Canonicalize(env, p).Ok?
    ensures Verified(env, Canonicalize(env, p).value) <==> !StaleClash(p.actions) && !TwinClash(p.actions)
  {
    assert RootsOk(p) && ConflictsOk(RootPass(env, p).actions);
    var actions, q := RootPass(env, p).actions, Canonical(env, p);
    RemapKeepsClashes(env, p);
    OnlyConflictsMove(env, p);
    var order := CanonicalSettles(env, p);
    hide RootPass, Canonical, Settles, StaleClash, TwinClash, ConflictsOk, ConflictPass, Verified;
    if StaleClash(actions) {
      StaleClashShows(env, actions, q.actions, order);
    } else if TwinClash(actions) {
      TwinClashShows(env, actions, q.actions, order);
    } else {
      NoClashStays(env, actions, q.actions, order);
    }
  }

  // A builder's document: nothing suffixed yet, no source entry read twice.
  predicate Fresh(d: Doc) {
    && (forall i :: 0 <= i < |d.actions| && Contends(d.actions[i].op) ==> d.actions[i].op.conflict == NoConflict)
    && (forall i, j :: 0 <= i < j < |d.actions| && !d.actions[i].op.Mkdir? && !d.actions[j].op.Mkdir? ==>
          KeyOf(d.actions[i].op.source) != KeyOf(d.actions[j].op.source))
  }

  // What a builder canonicalizes passes the check every reader makes.
  lemma FreshPlansVerify(env: Env, p: Doc)
    requires Fresh(p) && Canonicalize(env, p).Ok?
    ensures Verified(env, Canonicalize(env, p).value)
  {
    hide Crowd, Canonicalize, Verified, Joined, Base;
    forall i: nat, j: nat | i < |p.actions| && j < |p.actions|
      ensures !Clashing(p.actions, i, j) && !Twins(p.actions, i, j)
    {
    }
    assert !StaleClash(p.actions) && !TwinClash(p.actions);
    IdempotentExactly(env, p);
  }
}
