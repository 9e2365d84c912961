/**
 A second canonicalization finds nothing to do except, possibly, in the conflict pass
 (src/core/plan.rs).
 */
module PlanStable {
  import opened Basics
  import opened Order
  import opened Hex
  import opened Permute
  import opened Contest
  import opened PlanDoc

  // ----- roots

  ghost predicate Dense(roots: seq<Root>) {
    forall i :: 0 <= i < |roots| ==> roots[i].rootId == i
  }

  lemma {:induction false} DenseIdsStay(roots: seq<Root>, id: nat)
    requires Dense(roots)
    ensures NewId(roots, id) == id
  {
    if roots != [] && roots[|roots| - 1].rootId != id {
      DenseIdsStay(roots[..|roots| - 1], id);
    }
  }

  lemma RemapStays(d: Doc)
    requires Dense(d.roots)
    ensures Mapped(d.actions, RemapAction(d.roots)) == d.actions
    ensures Mapped(d.groups, RemapGroup(d.roots)) == d.groups
    ensures Mapped(d.excluded, RemapExcluded(d.roots)) == d.excluded
  {
    forall id: nat ensures NewId(d.roots, id) == id { DenseIdsStay(d.roots, id); }
    forall m ensures RemapMember(d.roots)(m) == m {}
    forall g: Group ensures RemapGroup(d.roots)(g) == g {
      assert Mapped(g.members, RemapMember(d.roots)) == g.members;
    }
  }

  lemma RootPassStays(env: Env, p: Doc, q: Doc)
    requires q.roots == RootPass(env, p).roots
    ensures RootPass(env, q) == q
  {
    var ordered := SortedRoots(p.roots);
    SortBySorted(p.roots, RootKey);
    forall i | 0 <= i < |q.roots| ensures RootKey(q.roots[i]) == RootKey(ordered[i]) {}
    SortByOfSorted(q.roots, RootKey);
    assert Renumbered(env, q.roots) == q.roots;
    RemapStays(q);
  }

  // A known id is renumbered to a known id.
  lemma {:induction false} NewIdFinds(ordered: seq<Root>, id: nat)
    requires HasRoot(ordered, id)
    ensures NewId(ordered, id) < |ordered| && ordered[NewId(ordered, id)].rootId == id
  {
    var n := |ordered| - 1;
    if ordered[n].rootId != id {
      var i :| 0 <= i < |ordered| && ordered[i].rootId == id;
      assert ordered[..n][i].rootId == id;
      NewIdFinds(ordered[..n], id);
    }
  }

  lemma NewIdInjective(roots: seq<Root>, x: nat, y: nat)
    requires IdsDistinct(roots) && HasRoot(roots, x) && HasRoot(roots, y)
    requires NewId(SortedRoots(roots), x) == NewId(SortedRoots(roots), y)
    ensures x == y
  {
    var ordered := SortedRoots(roots);
    SortByElements(roots, RootKey);
    var i :| 0 <= i < |roots| && roots[i].rootId == x;
    var j :| 0 <= j < |roots| && roots[j].rootId == y;
    assert roots[i] in ordered && roots[j] in ordered;
    NewIdFinds(ordered, x);
    NewIdFinds(ordered, y);
  }

  lemma KnownStays(env: Env, p: Doc, id: nat)
    requires HasRoot(p.roots, id)
    ensures HasRoot(SortedRoots(p.roots), id)
    ensures HasRoot(RootPass(env, p).roots, NewId(SortedRoots(p.roots), id))
  {
    var ordered := SortedRoots(p.roots);
    var i :| 0 <= i < |p.roots| && p.roots[i].rootId == id;
    SortByElements(p.roots, RootKey);
    assert p.roots[i] in ordered;
    NewIdFinds(ordered, id);
    assert RootPass(env, p).roots[NewId(ordered, id)].rootId == NewId(ordered, id);
  }

  // ----- actions

  function Dressed(env: Env, a: Action): Action {
    StampSlot(env)(ShowAction(env)(a))
  }

  lemma DressedKeeps(env: Env, actions: seq<Action>, i: nat)
    requires i < |actions|
    ensures ActionKey(Dressed(env, Settled(actions, i))) == ActionKey(actions[i])
  {
  }

  // Where every action of a canonical document comes from.
  ghost predicate ComesFrom(env: Env, p: Doc, order: seq<nat>) {
    var actions, out := RootPass(env, p).actions, Canonical(env, p).actions;
    && |out| == |actions| && InStableOrder(actions, ActionKey, order)
    && forall k :: 0 <= k < |out| ==> out[k] == StampId(env, Dressed(env, Settled(actions, order[k])), k)
  }

  function Prepared(env: Env, actions: seq<Action>): seq<Action> {
    Mapped(Mapped(actions, ShowAction(env)), StampSlot(env))
  }

  lemma ActionsFrom(env: Env, p: Doc) returns (order: seq<nat>)
    ensures ComesFrom(env, p, order)
  {
    var actions := RootPass(env, p).actions;
    var prepared := Prepared(env, ConflictPass(actions));
    forall i | 0 <= i < |actions|
      ensures prepared[i] == Dressed(env, Settled(actions, i)) && ActionKey(prepared[i]) == ActionKey(actions[i])
    {
      DressedKeeps(env, actions, i);
    }
    order := StableOrder(prepared, ActionKey);
    assert Canonical(env, p).actions == Stamped(env, SortBy(prepared, ActionKey));
    hide Dressed, Settled, ActionKey, Mapped, SortBy, Finished, Shaped, RootPass, ConflictPass, StampId, Prepared;
    SameKeysSameOrder(prepared, ActionKey, actions, ActionKey, order);
  }

  // A dressed action has nothing left to stamp but its id and ordinal.
  lemma ActionStays(env: Env, a: Action, k: nat)
    ensures var out := StampId(env, StampSlot(env)(a), k);
            StampSlot(env)(out) == out && ActionKey(out) == ActionKey(StampSlot(env)(a)) && StampId(env, out, k) == out
    ensures var out := StampId(env, Dressed(env, a), k); ShowAction(env)(out) == out
  {
    hide ActionId, Slot;
  }

  lemma ActionPassStays(env: Env, actions: seq<Action>)
    ensures ActionPass(env, ActionPass(env, actions)) == ActionPass(env, actions)
  {
    var slotted := Mapped(actions, StampSlot(env));
    var sorted := SortBy(slotted, ActionKey);
    var out := ActionPass(env, actions);
    hide SortBy, KeyLe;
    SortBySorted(slotted, ActionKey);
    StampedSorted(env, sorted);
    SortByOfSorted(out, ActionKey);
    forall k | 0 <= k < |out| ensures StampSlot(env)(out[k]) == out[k] && StampId(env, out[k], k) == out[k] {
      var i := SortedFrom(actions, StampSlot(env), ActionKey, k);
      ActionStays(env, actions[i], k);
    }
    hide StampSlot, ActionKey, StampId;
    assert Mapped(out, StampSlot(env)) == out;
    assert Stamped(env, out) == out;
  }

  lemma StampedSorted(env: Env, sorted: seq<Action>)
    requires SortedBy(sorted, ActionKey)
    ensures SortedBy(Stamped(env, sorted), ActionKey)
  {
    hide KeyLe, ActionId;
    forall k | 0 <= k < |sorted| ensures ActionKey(Stamped(env, sorted)[k]) == ActionKey(sorted[k]) {}
    hide ActionKey;
  }

  lemma ShowStays(env: Env, actions: seq<Action>)
    ensures var out := ActionPass(env, Mapped(actions, ShowAction(env))); Mapped(out, ShowAction(env)) == out
  {
    var shown := Mapped(actions, ShowAction(env));
    var out := ActionPass(env, shown);
    forall k | 0 <= k < |out| ensures ShowAction(env)(out[k]) == out[k] {
      var i := SortedFrom(shown, StampSlot(env), ActionKey, k);
      ActionStays(env, actions[i], k);
    }
  }

  // ----- groups and excluded entries

  lemma GroupStays(env: Env, g: Group)
    ensures var out := StampGroup(env)(SortMembers(g));
            && SortMembers(out) == out && KeeperKey(out) == KeeperKey(SortMembers(g)) && StampGroup(env)(out) == out
  {
    SortBySorted(g.members, MemberKey);
    SortByOfSorted(SortBy(g.members, MemberKey), MemberKey);
    hide SortBy, MemberElements;
    var out := StampGroup(env)(SortMembers(g));
    assert GroupElements(out) == GroupElements(SortMembers(g));
    assert RemainingRoots(out) == RemainingRoots(SortMembers(g));
  }

  lemma GroupPassStays(env: Env, groups: seq<Group>)
    ensures GroupPass(env, GroupPass(env, groups)) == GroupPass(env, groups)
  {
    forall g ensures var out := StampGroup(env)(SortMembers(g));
      && SortMembers(out) == out && KeeperKey(out) == KeeperKey(SortMembers(g)) && StampGroup(env)(out) == out
    {
      GroupStays(env, g);
    }
    hide SortBy, StampGroup, KeeperKey, SortMembers;
    SortPassStays(groups, SortMembers, KeeperKey, StampGroup(env));
  }

  lemma ShownGroupStays(env: Env, g: Group)
    ensures var out := StampGroup(env)(SortMembers(ShowGroup(env)(g))); ShowGroup(env)(out) == out
  {
    var members := SortMembers(ShowGroup(env)(g)).members;
    forall m | 0 <= m < |members| ensures ShowMember(env)(members[m]) == members[m] {
      var i := SortedFrom(g.members, ShowMember(env), MemberKey, m);
    }
    hide SortMembers, GroupId, RemainingRoots;
    assert Mapped(members, ShowMember(env)) == members;
  }

  lemma ShowGroupsStays(env: Env, groups: seq<Group>)
    ensures var out := GroupPass(env, Mapped(groups, ShowGroup(env))); Mapped(out, ShowGroup(env)) == out
  {
    var shown := Mapped(groups, ShowGroup(env));
    var out := GroupPass(env, shown);
    forall k | 0 <= k < |out| ensures ShowGroup(env)(out[k]) == out[k] {
      var i := SortedFrom(shown, SortMembers, KeeperKey, k);
      ShownGroupStays(env, groups[i]);
    }
    hide GroupPass, ShowGroup;
    assert Mapped(out, ShowGroup(env)) == out;
  }

  lemma ExcludedStays(env: Env, excluded: seq<Excluded>)
    ensures var out := SortBy(Mapped(excluded, ShowExcluded(env)), ExcludedKey);
            SortBy(out, ExcludedKey) == out && Mapped(out, ShowExcluded(env)) == out
  {
    var shown := Mapped(excluded, ShowExcluded(env));
    var out := SortBy(shown, ExcludedKey);
    SortBySorted(shown, ExcludedKey);
    SortByOfSorted(out, ExcludedKey);
    forall k | 0 <= k < |out| ensures ShowExcluded(env)(out[k]) == out[k] {
      var i := SortedFrom(excluded, ShowExcluded(env), ExcludedKey, k);
    }
  }

  // Display and finishing find nothing to change.
  lemma FinishStays(env: Env, d: Doc)
    ensures var q := Finished(env, DisplayPass(env, d)); DisplayPass(env, q) == q && Finished(env, q) == q
  {
    hide ActionPass, GroupPass, SummaryOf;
    var shown := DisplayPass(env, d);
    ActionPassStays(env, shown.actions);
    ShowStays(env, d.actions);
    GroupPassStays(env, shown.groups);
    ShowGroupsStays(env, d.groups);
    ExcludedStays(env, d.excluded);
  }

  // ----- what made the first pass succeed still holds

  lemma GroupFrom(env: Env, p: Doc, k: nat) returns (i: nat)
    requires k < |p.groups|
    ensures |Canonical(env, p).groups| == |p.groups| && i < |p.groups|
    ensures Canonical(env, p).groups[k]
         == StampGroup(env)(SortMembers(ShowGroup(env)(RemapGroup(SortedRoots(p.roots))(p.groups[i]))))
  {
    var remapped := Mapped(p.groups, RemapGroup(SortedRoots(p.roots)));
    var shown := Mapped(remapped, ShowGroup(env));
    i := SortedFrom(shown, SortMembers, KeeperKey, k);
  }

  lemma ExcludedFrom(env: Env, p: Doc, k: nat) returns (i: nat)
    requires k < |p.excluded|
    ensures |Canonical(env, p).excluded| == |p.excluded| && i < |p.excluded|
    ensures Canonical(env, p).excluded[k]
         == ShowExcluded(env)(RemapExcluded(SortedRoots(p.roots))(p.excluded[i]))
  {
    i := SortedFrom(Mapped(p.excluded, RemapExcluded(SortedRoots(p.roots))), ShowExcluded(env), ExcludedKey, k);
  }

  lemma GroupStaysGood(env: Env, roots: seq<Root>, g: Group)
    requires GroupKnown(roots, g) && GroupHex(g)
    ensures var out := StampGroup(env)(SortMembers(ShowGroup(env)(g))); GroupKnown(roots, out) && GroupHex(out)
  {
    var out := StampGroup(env)(SortMembers(ShowGroup(env)(g)));
    forall m | 0 <= m < |out.members|
      ensures HasRoot(roots, out.members[m].entry.root) && AllHex(out.members[m].entry.parts)
    {
      var i := SortedFrom(g.members, ShowMember(env), MemberKey, m);
    }
  }

  lemma OpStaysKnown(env: Env, p: Doc, op: Op)
    requires OpKnown(p.roots, op)
    ensures OpKnown(RootPass(env, p).roots, RemapOp(op, SortedRoots(p.roots)))
  {
    KnownStays(env, p, op.dest.root);
    if !op.Mkdir? { KnownStays(env, p, op.source.root); }
    hide HasRoot, RootPass, SortedRoots;
  }

  lemma GroupStaysKnown(env: Env, p: Doc, g: Group)
    requires GroupKnown(p.roots, g)
    ensures GroupKnown(RootPass(env, p).roots, RemapGroup(SortedRoots(p.roots))(g))
  {
    KnownStays(env, p, g.keeper.root);
    forall k | 0 <= k < |g.members|
      ensures HasRoot(RootPass(env, p).roots, NewId(SortedRoots(p.roots), g.members[k].entry.root))
    {
      KnownStays(env, p, g.members[k].entry.root);
    }
    hide HasRoot, RootPass, SortedRoots;
  }

  // Renumbered roots are as good as the roots were.
  lemma RootsStayGood(env: Env, p: Doc)
    requires RootsOk(p)
    ensures RootsOk(RootPass(env, p))
  {
    var r, ordered := RootPass(env, p), SortedRoots(p.roots);
    forall i | 0 <= i < |r.roots| ensures IsHex(r.roots[i].pathRaw) {
      SortByElements(p.roots, RootKey);
      assert ordered[i] in ordered && ordered[i] in p.roots;
    }
    hide HasRoot, SortedRoots;
    forall i | 0 <= i < |r.actions| ensures OpKnown(r.roots, r.actions[i].op) {
      OpStaysKnown(env, p, p.actions[i].op);
    }
    forall i | 0 <= i < |r.groups| ensures GroupKnown(r.roots, r.groups[i]) {
      GroupStaysKnown(env, p, p.groups[i]);
    }
    forall i | 0 <= i < |r.excluded| ensures HasRoot(r.roots, r.excluded[i].root) {
      KnownStays(env, p, p.excluded[i].root);
    }
  }

  ghost predicate ActionsGood(d: Doc) {
    forall k :: 0 <= k < |d.actions| ==> OpKnown(d.roots, d.actions[k].op) && OpHex(d.actions[k].op)
  }

  ghost predicate GroupsGood(d: Doc) {
    forall k :: 0 <= k < |d.groups| ==> GroupKnown(d.roots, d.groups[k]) && GroupHex(d.groups[k])
  }

  ghost predicate ExcludedGood(d: Doc) {
    forall k :: 0 <= k < |d.excluded| ==> HasRoot(d.roots, d.excluded[k].root) && AllHex(d.excluded[k].parts)
  }

  ghost predicate RootsGood(d: Doc) {
    IdsDistinct(d.roots) && RootsHex(d.roots)
  }

  lemma GoodIsOk(d: Doc)
    requires RootsGood(d) && ActionsGood(d) && GroupsGood(d) && ExcludedGood(d)
    ensures RootsOk(d) && DisplayOk(d)
  {
    hide OpKnown, OpHex, GroupKnown, GroupHex, AllHex, HasRoot;
  }

  lemma ShapeableAction(env: Env, p: Doc, i: nat)
    requires Shapeable(env, p) && i < |p.actions|
    ensures var r := RootPass(env, p); OpKnown(r.roots, r.actions[i].op) && OpHex(Settled(r.actions, i).op)
  {
    RootsStayGood(env, p);
    assert OpHex(ConflictPass(RootPass(env, p).actions)[i].op);
  }

  lemma ActionsStayGood(env: Env, p: Doc)
    requires Shapeable(env, p)
    ensures ActionsGood(Canonical(env, p))
  {
    hide Canonical, Shapeable, Dressed, Settled, StampId, ActionKey, OpHex, OpKnown;
    var q, r := Canonical(env, p), RootPass(env, p);
    CanonicalRoots(env, p);
    var order := ActionsFrom(env, p);
    forall k | 0 <= k < |q.actions| ensures OpKnown(q.roots, q.actions[k].op) && OpHex(q.actions[k].op) {
      ShapeableAction(env, p, order[k]);
      ActionStaysGood(env, q.roots, r.actions, order[k], k);
    }
  }

  lemma GroupsStayGood(env: Env, p: Doc)
    requires Shapeable(env, p)
    ensures GroupsGood(Canonical(env, p))
  {
    var q, r := Canonical(env, p), RootPass(env, p);
    assert q.roots == r.roots;
    RootsStayGood(env, p);
    forall k | 0 <= k < |q.groups| ensures GroupKnown(q.roots, q.groups[k]) && GroupHex(q.groups[k]) {
      var i := GroupFrom(env, p, k);
      assert r.groups[i] == RemapGroup(SortedRoots(p.roots))(p.groups[i]);
      GroupStaysGood(env, q.roots, r.groups[i]);
    }
  }

  lemma ExcludedStaysGood(env: Env, p: Doc)
    requires Shapeable(env, p)
    ensures ExcludedGood(Canonical(env, p))
  {
    var q, r := Canonical(env, p), RootPass(env, p);
    assert q.roots == r.roots;
    RootsStayGood(env, p);
    forall k | 0 <= k < |q.excluded| ensures HasRoot(q.roots, q.excluded[k].root) && AllHex(q.excluded[k].parts) {
      var i := ExcludedFrom(env, p, k);
      assert r.excluded[i] == RemapExcluded(SortedRoots(p.roots))(p.excluded[i]);
    }
  }

  lemma CanonicalRoots(env: Env, p: Doc)
    ensures Canonical(env, p).roots == RootPass(env, p).roots
  {
  }

  // The second pass starts from references and hex that are as good as they were.
  lemma StillWellFormed(env: Env, p: Doc)
    requires Shapeable(env, p)
    ensures RootsOk(Canonical(env, p)) && DisplayOk(Canonical(env, p))
  {
    assert RootsGood(Canonical(env, p)) by {
      RootsStayGood(env, p);
      CanonicalRoots(env, p);
      hide Canonical, RootPass;
    }
    hide Canonical, RootsGood, ActionsGood, GroupsGood, ExcludedGood;
    ActionsStayGood(env, p);
    GroupsStayGood(env, p);
    ExcludedStaysGood(env, p);
    GoodIsOk(Canonical(env, p));
  }

  lemma ActionStaysGood(env: Env, roots: seq<Root>, actions: seq<Action>, i: nat, k: nat)
    requires i < |actions| && OpKnown(roots, actions[i].op) && OpHex(Settled(actions, i).op)
    ensures var out := StampId(env, Dressed(env, Settled(actions, i)), k); OpKnown(roots, out.op) && OpHex(out.op)
  {
    hide ActionId, Slot, Base, Rank, Competing;
  }

  // A canonical document is changed by a second pass exactly when its conflicts are.
  lemma OnlyConflictsMove(env: Env, p: Doc)
    requires Shapeable(env, p)
    ensures var q := Canonical(env, p);
            Verified(env, q) <==> ConflictsOk(q.actions) && ConflictPass(q.actions) == q.actions
  {
    var q := Canonical(env, p);
    RootPassStays(env, p, q);
    StillWellFormed(env, p);
    FinishStays(env, RootPass(env, p).(actions := ConflictPass(RootPass(env, p).actions)));
    if ConflictsOk(q.actions) && ConflictPass(q.actions) == q.actions {
      assert q.(actions := ConflictPass(q.actions)) == q;
    } else if Verified(env, q) {
      SecondPassShows(env, q);
    }
  }

  lemma SettledShows(env: Env, actions: seq<Action>, k: nat)
    requires k < |actions| && actions[k] == StampId(env, Dressed(env, Settled(actions, k)), k)
    ensures Settled(actions, k) == actions[k]
  {
    hide ActionId, Slot, Shown, Base, Rank, Competing;
  }

  lemma CanonicalSorted(env: Env, p: Doc)
    ensures SortedBy(Canonical(env, p).actions, ActionKey)
  {
    var prepared := Prepared(env, ConflictPass(RootPass(env, p).actions));
    SortBySorted(prepared, ActionKey);
    StampedSorted(env, SortBy(prepared, ActionKey));
    assert Canonical(env, p).actions == Stamped(env, SortBy(prepared, ActionKey));
    hide SortBy, Prepared, Canonical;
  }

  lemma VerifiedIs(env: Env, q: Doc)
    requires Verified(env, q)
    ensures Canonical(env, q) == q
  {
  }

  // A settled action differs from what it was in a field no later step touches.
  lemma SecondPassShows(env: Env, q: Doc)
    requires RootPass(env, q) == q && Verified(env, q)
    ensures ConflictPass(q.actions) == q.actions
  {
    hide KeyLe, ActionKey, Dressed, Settled, RootPass, Canonical, Canonicalize, Verified;
    var order := ActionsFrom(env, q);
    CanonicalSorted(env, q);
    VerifiedIs(env, q);
    SortedOrderIsIdentity(q.actions, ActionKey, order);
    forall k | 0 <= k < |q.actions| ensures Settled(q.actions, k) == q.actions[k] {
      SettledShows(env, q.actions, k);
    }
  }
}
