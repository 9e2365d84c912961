/**
 Canonicalizing two presentations of the same facts gives the same document (src/core/plan.rs).
 */
module PlanOrderFree {
  import opened Basics
  import opened Order
  import opened Hex
  import opened Permute
  import opened Contest
  import opened PlanDoc
  import opened PlanStable
  import opened PlanPresentation

  // ----- actions after their root ids are renumbered

  lemma RemappedBare(p: Doc, q: Doc, rename: nat -> nat, a: Action)
    requires SameIds(p, q, rename) && OpKnown(p.roots, a.op)
    ensures BareAction(Same)(RemapAction(SortedRoots(p.roots))(a)) == RemapAction(SortedRoots(q.roots))(BareAction(rename)(a))
  {
    hide HasRoot, SortedRoots, NewId;
    assert Same(NewId(SortedRoots(p.roots), a.op.dest.root)) == NewId(SortedRoots(q.roots), rename(a.op.dest.root));
    if !a.op.Mkdir? {
      assert Same(NewId(SortedRoots(p.roots), a.op.source.root)) == NewId(SortedRoots(q.roots), rename(a.op.source.root));
    }
  }

  lemma RemappedFaces(env: Env, p: Doc, q: Doc, rename: nat -> nat)
    requires SameIds(p, q, rename) && RefsKnown(p)
    ensures Mapped(RootPass(env, p).actions, BareAction(Same))
         == Mapped(Mapped(p.actions, BareAction(rename)), RemapAction(SortedRoots(q.roots)))
  {
    hide SortedRoots, SameIds, HasRoot, RemapAction, BareAction;
    var faces := Mapped(RootPass(env, p).actions, BareAction(Same));
    assert |faces| == |p.actions|;
    forall i | 0 <= i < |faces|
      ensures faces[i] == RemapAction(SortedRoots(q.roots))(BareAction(rename)(p.actions[i]))
    {
      RemappedBare(p, q, rename, p.actions[i]);
    }
  }

  lemma SameItself(q: Doc)
    ensures SameIds(q, q, Same)
  {
  }

  lemma SameActionsAfter(env: Env, p: Doc, q: Doc, rename: nat -> nat)
    requires SameFacts(p, q, rename) && SameIds(p, q, rename) && RefsKnown(p) && RefsKnown(q)
    ensures multiset(Mapped(RootPass(env, p).actions, BareAction(Same)))
         == multiset(Mapped(RootPass(env, q).actions, BareAction(Same)))
  {
    SameItself(q);
    hide SameIds, RefsKnown, RootPass, SortedRoots, Mapped;
    RemappedFaces(env, p, q, rename);
    RemappedFaces(env, q, q, Same);
    MapKeepsMultiset(Mapped(p.actions, BareAction(rename)), Mapped(q.actions, BareAction(Same)),
                     RemapAction(SortedRoots(q.roots)));
  }

  // ----- the contest seen from either side

  lemma SameEntrant(a: Action, b: Action)
    requires BareAction(Same)(a) == BareAction(Same)(b)
    ensures EntrantOf(a) == EntrantOf(b) && EntrantOk(a.op) == EntrantOk(b.op)
    ensures Contends(a.op) == Contends(b.op)
    ensures Contends(a.op) ==> Base(a.op.dest.parts, a.op.conflict) == Base(b.op.dest.parts, b.op.conflict)
  {
    assert Same(a.op.dest.root) == Same(b.op.dest.root);
    if Contends(a.op) {
      assert Same(a.op.source.root) == Same(b.op.source.root);
      assert PriorOrdinal(a.op.conflict) == PriorOrdinal(b.op.conflict);
    }
    hide Joined, AllHex;
  }

  lemma SameEntrants(x: seq<Action>, y: seq<Action>, order: seq<nat>)
    requires Along(x, BareAction(Same), y, BareAction(Same), order) && SourcesDistinct(x)
    ensures SameContest(EntrantsOf(x), EntrantsOf(y), order)
    ensures SamePrecedence(EntrantsOf(x), EntrantsOf(y), order)
  {
    var a, b := EntrantsOf(x), EntrantsOf(y);
    forall k | 0 <= k < |b| ensures b[k] == a[order[k]] {
      SameEntrant(x[order[k]], y[k]);
    }
    hide Joined, Base, BareAction;
    forall j: nat, k: nat | j < |b| && k < |b| && Rivals(b, j, k) ensures Ahead(b, j, k) == Ahead(a, order[j], order[k]) {
      if b[j].value.key == b[k].value.key {
        KeysTellSources(x, order[j], order[k]);
      }
    }
  }

  // Contenders with one rank key are one action.
  lemma KeysTellSources(x: seq<Action>, i: nat, j: nat)
    requires SourcesDistinct(x) && i < |x| && j < |x| && Contends(x[i].op) && Contends(x[j].op)
    requires RankKey(x[i].op.source) == RankKey(x[j].op.source)
    ensures i == j
  {
    assert KeyOf(x[i].op.source) == KeyOf(x[j].op.source);
  }

  // An action without its display texts, slot, id and ordinal.
  function PlainOp(op: Op): Op {
    match op
    case Mkdir(d) => Mkdir(BareDest(Same, d))
    case Move(d, s, c) => Move(BareDest(Same, d), BareSource(Same, s), c)
    case Extract(d, s, c) => Extract(BareDest(Same, d), BareSource(Same, s), c)
    case Quarantine(d, s, g, _) => Quarantine(BareDest(Same, d), BareSource(Same, s), g, [])
  }

  lemma SameSettled(x: seq<Action>, y: seq<Action>, order: seq<nat>, k: nat)
    requires Along(x, BareAction(Same), y, BareAction(Same), order) && k < |y|
    requires SameContest(EntrantsOf(x), EntrantsOf(y), order) && SamePrecedence(EntrantsOf(x), EntrantsOf(y), order)
    ensures PlainOp(Settled(y, k).op) == PlainOp(Settled(x, order[k]).op)
    ensures EntrantOk(y[k].op) == EntrantOk(x[order[k]].op) && SuffixesOk(y, k) == SuffixesOk(x, order[k])
  {
    var a, b := EntrantsOf(x), EntrantsOf(y);
    SameEntrant(x[order[k]], y[k]);
    if Contends(y[k].op) {
      assert b[k].Some?;
      RankFollows(a, b, order, k);
      CompetingFollows(a, b, order, k);
    }
    hide Crowd, Rank, Competing, Base, NameAt, Suffixable, SameContest, SamePrecedence, EntrantOk;
    assert BareAction(Same)(y[k]) == BareAction(Same)(x[order[k]]);
  }

  lemma SameDressed(env: Env, a: Action, b: Action)
    requires PlainOp(a.op) == PlainOp(b.op)
    ensures Dressed(env, a).op == Dressed(env, b).op
  {
    assert Same(a.op.dest.root) == Same(b.op.dest.root);
    if !a.op.Mkdir? {
      assert Same(a.op.source.root) == Same(b.op.source.root);
    }
    hide Shown;
    if a.op.Quarantine? {
      assert SlotElements(a.op.groupId, ShowSource(env, a.op.source)) == SlotElements(b.op.groupId, ShowSource(env, b.op.source));
    }
  }

  lemma SameConflictsOk(x: seq<Action>, y: seq<Action>, order: seq<nat>)
    requires Along(x, BareAction(Same), y, BareAction(Same), order) && SourcesDistinct(x)
    ensures ConflictsOk(x) <==> ConflictsOk(y)
  {
    SameEntrants(x, y, order);
    hide EntrantOk, SuffixesOk, Settled, SameContest, SamePrecedence, BareAction;
    forall k: nat | k < |y|
      ensures EntrantOk(y[k].op) == EntrantOk(x[order[k]].op) && SuffixesOk(y, k) == SuffixesOk(x, order[k])
    {
      SameSettled(x, y, order, k);
    }
    RearrangesOnto(order, |x|);
    if ConflictsOk(y) {
      forall i: nat | i < |x| ensures EntrantOk(x[i].op) && SuffixesOk(x, i) {
        assert i in order;
        var k :| 0 <= k < |order| && order[k] == i;
        assert EntrantOk(y[k].op) && SuffixesOk(y, k);
      }
    }
  }

  lemma SameActionsHex(x: seq<Action>, y: seq<Action>, order: seq<nat>)
    requires Along(x, BareAction(Same), y, BareAction(Same), order) && SourcesDistinct(x)
    ensures (forall i :: 0 <= i < |x| ==> OpHex(ConflictPass(x)[i].op))
       <==> (forall k :: 0 <= k < |y| ==> OpHex(ConflictPass(y)[k].op))
  {
    SameEntrants(x, y, order);
    forall k: nat | k < |y| ensures OpHex(ConflictPass(y)[k].op) == OpHex(ConflictPass(x)[order[k]].op) {
      SameSettled(x, y, order, k);
      SamePlainHex(Settled(x, order[k]).op, Settled(y, k).op);
    }
    hide OpHex, ConflictPass, SameContest, SamePrecedence, BareAction;
    RearrangesOnto(order, |x|);
    if forall k :: 0 <= k < |y| ==> OpHex(ConflictPass(y)[k].op) {
      forall i: nat | i < |x| ensures OpHex(ConflictPass(x)[i].op) {
        assert i in order;
        var k :| 0 <= k < |order| && order[k] == i;
        assert OpHex(ConflictPass(y)[k].op);
      }
    }
  }

  lemma SamePlainHex(a: Op, b: Op)
    requires PlainOp(a) == PlainOp(b)
    ensures OpHex(a) == OpHex(b)
  {
    assert a.dest.parts == b.dest.parts;
  }

  // ----- the final list of actions

  function Blank(a: Action): Action {
    a.(actionId := [], ordinal := 0)
  }

  lemma {:induction false} LegalJoined(a: seq<Text>, b: seq<Text>)
    requires LegalParts(a) && LegalParts(b) && Joined(a) == Joined(b)
    ensures a == b
  {
    var s := Joined(a);
    var x, y := Bytes(a[0]), Bytes(b[0]);
    FirstPart(a);
    FirstPart(b);
    assert forall k :: 0 <= k < |x| ==> x[k] in x && s[k] == x[k];
    assert forall k :: 0 <= k < |y| ==> y[k] in y && s[k] == y[k];
    assert |x| == |y|;
    assert x == s[..|x|] == y;
    DecodeInjective(a[0], b[0]);
    if |a| > 1 {
      assert s[|x| + 1..] == Joined(a[1..]) == Joined(b[1..]);
      assert LegalParts(a[1..]) && LegalParts(b[1..]);
      LegalJoined(a[1..], b[1..]);
    }
    assert a == [a[0]] + a[1..] && b == [b[0]] + b[1..];
  }

  lemma FirstPart(a: seq<Text>)
    requires LegalParts(a)
    ensures var s, x := Joined(a), Bytes(a[0]);
            && |x| <= |s| && s[..|x|] == x && SLASH !in x
            && (|a| == 1 <==> |s| == |x|)
            && (|a| > 1 ==> |s| > |x| && s[|x|] == SLASH && s[|x| + 1..] == Joined(a[1..]))
  {
  }

  // Equal action keys mean equal actions, as far as anyone can tell.
  lemma KeysTellActions(env: Env, x: seq<Action>, i: nat, j: nat)
    requires SourcesDistinct(x) && MkdirsLegal(x) && i < j < |x| && ActionKey(x[i]) == ActionKey(x[j])
    ensures Blank(Dressed(env, Settled(x, i))) == Blank(Dressed(env, Settled(x, j)))
  {
    hide Shown, Crowd, Rank, Competing, Base, NameAt;
    if x[i].op.Mkdir? {
      LegalJoined(x[i].op.dest.parts, x[j].op.dest.parts);
    }
  }

  lemma DressedAlong(env: Env, x: seq<Action>, y: seq<Action>, order: seq<nat>)
    requires Along(x, BareAction(Same), y, BareAction(Same), order) && SourcesDistinct(x)
    ensures multiset(Mapped(Prepared(env, ConflictPass(x)), Blank)) == multiset(Mapped(Prepared(env, ConflictPass(y)), Blank))
  {
    SameEntrants(x, y, order);
    var s, t := Mapped(Prepared(env, ConflictPass(x)), Blank), Mapped(Prepared(env, ConflictPass(y)), Blank);
    forall k: nat | k < |y| ensures t[k] == s[order[k]] {
      SameSettled(x, y, order, k);
      SameDressed(env, Settled(x, order[k]), Settled(y, k));
      PreparedAt(env, x, order[k]);
      PreparedAt(env, y, k);
      hide Dressed, Settled, Prepared;
      assert s[order[k]] == Blank(Dressed(env, Settled(x, order[k]))) && t[k] == Blank(Dressed(env, Settled(y, k)));
      BlankDressed(env, Settled(x, order[k]), Settled(y, k));
    }
    hide Prepared, Blank, ConflictPass, SameContest, SamePrecedence, BareAction;
    RearrangedMultiset(s, t, order);
  }

  lemma PreparedAt(env: Env, x: seq<Action>, i: nat)
    requires i < |x|
    ensures |Prepared(env, ConflictPass(x))| == |x|
    ensures Prepared(env, ConflictPass(x))[i] == Dressed(env, Settled(x, i))
  {
  }

  lemma BlankDressed(env: Env, a: Action, b: Action)
    requires Dressed(env, a).op == Dressed(env, b).op
    ensures Blank(Dressed(env, a)) == Blank(Dressed(env, b))
  {
    hide ShowAction, Slot;
  }

  lemma StampedFaces(env: Env, s: seq<Action>, t: seq<Action>)
    requires Mapped(s, Blank) == Mapped(t, Blank)
    ensures Stamped(env, s) == Stamped(env, t)
  {
    assert |Mapped(s, Blank)| == |Mapped(t, Blank)|;
    forall k | 0 <= k < |s| ensures Stamped(env, s)[k] == Stamped(env, t)[k] {
      assert Mapped(s, Blank)[k] == Mapped(t, Blank)[k];
    }
  }

  lemma SameFinalActions(env: Env, x: seq<Action>, y: seq<Action>, order: seq<nat>)
    requires Along(x, BareAction(Same), y, BareAction(Same), order) && SourcesDistinct(x) && MkdirsLegal(x)
    ensures ActionPass(env, Mapped(ConflictPass(x), ShowAction(env))) == ActionPass(env, Mapped(ConflictPass(y), ShowAction(env)))
  {
    var s, t := Prepared(env, ConflictPass(x)), Prepared(env, ConflictPass(y));
    assert ActionPass(env, Mapped(ConflictPass(x), ShowAction(env))) == Stamped(env, SortBy(s, ActionKey));
    assert ActionPass(env, Mapped(ConflictPass(y), ShowAction(env))) == Stamped(env, SortBy(t, ActionKey));
    assert |s| == |x|;
    assert Carries(Blank, ActionKey, ActionKey);
    hide Prepared, ConflictPass, ActionPass, Carries, Settled, Blank, Along, SortBy, StampId;
    DressedAlong(env, x, y, order);
    forall i, j | 0 <= i < j < |s| && ActionKey(s[i]) == ActionKey(s[j]) ensures Blank(s[i]) == Blank(s[j]) {
      PreparedAt(env, x, i);
      PreparedAt(env, x, j);
      DressedKeeps(env, x, i);
      DressedKeeps(env, x, j);
      KeysTellActions(env, x, i, j);
    }
    SortedFaces(s, Blank, t, Blank, ActionKey, ActionKey);
    StampedFaces(env, SortBy(s, ActionKey), SortBy(t, ActionKey));
  }

  // ----- groups

  function BlankGroup(g: Group): Group {
    g.(groupId := [], floor := g.floor.(remainingAfter := 0))
  }

  function Arranged(env: Env, ordered: seq<Root>, g: Group): Group {
    SortMembers(ShowGroup(env)(RemapGroup(ordered)(g)))
  }

  function ShownMember(env: Env, ordered: seq<Root>): GroupMember -> GroupMember {
    (m: GroupMember) => ShowMember(env)(RemapMember(ordered)(m))
  }

  lemma ShownMemberIs(env: Env, ordered: seq<Root>, m: GroupMember)
    ensures ShownMember(env, ordered)(m)
         == m.(entry := m.entry.(root := NewId(ordered, m.entry.root), display := Shown(env, m.entry.parts)))
  {
    hide NewId, Shown;
    var r := RemapMember(ordered)(m);
    assert r == m.(entry := RemapSource(m.entry, ordered));
    assert ShowMember(env)(r) == r.(entry := ShowSource(env, r.entry));
  }

  lemma ShownMembers(env: Env, p: Doc, q: Doc, rename: nat -> nat, g: Group)
    requires SameIds(p, q, rename) && GroupKnown(p.roots, g)
    ensures Mapped(g.members, ShownMember(env, SortedRoots(p.roots)))
         == Mapped(Mapped(g.members, BareMember(rename)), ShownMember(env, SortedRoots(q.roots)))
  {
    hide HasRoot, SortedRoots, NewId, Shown;
    forall k | 0 <= k < |g.members|
      ensures ShownMember(env, SortedRoots(p.roots))(g.members[k])
           == ShownMember(env, SortedRoots(q.roots))(BareMember(rename)(g.members[k]))
    {
      var id := g.members[k].entry.root;
      assert HasRoot(p.roots, id) && NewId(SortedRoots(p.roots), id) == NewId(SortedRoots(q.roots), rename(id));
      ShownMemberIs(env, SortedRoots(p.roots), g.members[k]);
      ShownMemberIs(env, SortedRoots(q.roots), BareMember(rename)(g.members[k]));
    }
  }

  lemma ArrangedIs(env: Env, ordered: seq<Root>, g: Group)
    ensures Arranged(env, ordered, g).members == SortBy(Mapped(g.members, ShownMember(env, ordered)), MemberKey)
    ensures Arranged(env, ordered, g).(members := [])
         == g.(keeper := ShowSource(env, RemapSource(g.keeper, ordered)), members := [])
  {
    assert Mapped(Mapped(g.members, RemapMember(ordered)), ShowMember(env)) == Mapped(g.members, ShownMember(env, ordered));
    hide SortBy;
  }

  // Renumbered members still have distinct keys.
  lemma MembersStayDistinct(env: Env, p: Doc, g: Group)
    requires IdsDistinct(p.roots) && GroupKnown(p.roots, g) && KeysDistinct(g.members, MemberKey)
    ensures KeysDistinct(Mapped(g.members, ShownMember(env, SortedRoots(p.roots))), MemberKey)
  {
    var shown := Mapped(g.members, ShownMember(env, SortedRoots(p.roots)));
    hide HasRoot, SortedRoots, NewId, Shown, IdsDistinct;
    forall i, j | 0 <= i < j < |shown| ensures MemberKey(shown[i]) != MemberKey(shown[j]) {
      var x, y := g.members[i].entry, g.members[j].entry;
      assert MemberKey(g.members[i]) != MemberKey(g.members[j]);
      assert HasRoot(p.roots, x.root) && HasRoot(p.roots, y.root);
      ShownMemberIs(env, SortedRoots(p.roots), g.members[i]);
      ShownMemberIs(env, SortedRoots(p.roots), g.members[j]);
      if NewId(SortedRoots(p.roots), x.root) == NewId(SortedRoots(p.roots), y.root) {
        NewIdInjective(p.roots, x.root, y.root);
      }
    }
  }

  lemma SameArranged(env: Env, p: Doc, q: Doc, rename: nat -> nat, a: Group, b: Group)
    requires SameIds(p, q, rename) && FactsOf(rename)(a) == FactsOf(Same)(b)
    requires GroupKnown(p.roots, a) && GroupKnown(q.roots, b)
    requires IdsDistinct(p.roots) && KeysDistinct(a.members, MemberKey)
    ensures BlankGroup(Arranged(env, SortedRoots(p.roots), a)) == BlankGroup(Arranged(env, SortedRoots(q.roots), b))
  {
    var x, y := Mapped(a.members, ShownMember(env, SortedRoots(p.roots))), Mapped(b.members, ShownMember(env, SortedRoots(q.roots)));
    assert multiset(x) == multiset(y) by {
      SameItself(q);
      ShownMembers(env, p, q, rename, a);
      ShownMembers(env, q, q, Same, b);
      hide SameIds, GroupKnown, SortedRoots, ShownMember;
      MapKeepsMultiset(Mapped(a.members, BareMember(rename)), Mapped(b.members, BareMember(Same)),
                       ShownMember(env, SortedRoots(q.roots)));
    }
    assert SortBy(x, MemberKey) == SortBy(y, MemberKey) by {
      MembersStayDistinct(env, p, a);
      hide SameIds, GroupKnown, SortedRoots, ShownMember, SortBy, MemberKey, Mapped;
      DistinctKeysTell(x, MemberKey);
      SortForgetsOrder(x, y, MemberKey);
    }
    SameKeeper(env, p, q, rename, a, b);
    ArrangedIs(env, SortedRoots(p.roots), a);
    ArrangedIs(env, SortedRoots(q.roots), b);
    hide Arranged, SortBy, Mapped, SameIds, GroupKnown, SortedRoots, KeysDistinct, IdsDistinct;
  }

  lemma SameKeeper(env: Env, p: Doc, q: Doc, rename: nat -> nat, a: Group, b: Group)
    requires SameIds(p, q, rename) && FactsOf(rename)(a) == FactsOf(Same)(b) && GroupKnown(p.roots, a)
    ensures ShowSource(env, RemapSource(a.keeper, SortedRoots(p.roots)))
         == ShowSource(env, RemapSource(b.keeper, SortedRoots(q.roots)))
    ensures a.matchKind == b.matchKind && a.maxDistance == b.maxDistance && a.keepReason == b.keepReason
    ensures a.floor.required == b.floor.required && a.floor.observed == b.floor.observed
    ensures a.reclaimable == b.reclaimable && a.reviewOnly == b.reviewOnly
  {
    hide HasRoot, SortedRoots, NewId, Shown;
    assert rename(a.keeper.root) == Same(b.keeper.root);
    assert HasRoot(p.roots, a.keeper.root);
    assert NewId(SortedRoots(p.roots), a.keeper.root) == NewId(SortedRoots(q.roots), rename(a.keeper.root));
  }

  // The groups before they are listed and stamped.
  function ArrangedAll(env: Env, d: Doc): seq<Group> {
    Mapped(Mapped(Mapped(d.groups, RemapGroup(SortedRoots(d.roots))), ShowGroup(env)), SortMembers)
  }

  lemma ArrangedAt(env: Env, d: Doc, i: nat)
    requires i < |d.groups|
    ensures |ArrangedAll(env, d)| == |d.groups| && ArrangedAll(env, d)[i] == Arranged(env, SortedRoots(d.roots), d.groups[i])
  {
    hide RemapGroup, ShowGroup, SortMembers, SortedRoots;
  }

  ghost predicate GroupsReady(p: Doc) {
    && IdsDistinct(p.roots)
    && (forall i :: 0 <= i < |p.groups| ==> GroupKnown(p.roots, p.groups[i]))
    && KeysDistinct(p.groups, KeeperKey)
    && (forall i :: 0 <= i < |p.groups| ==> KeysDistinct(p.groups[i].members, MemberKey))
  }

  lemma ArrangedFaces(env: Env, p: Doc, q: Doc, rename: nat -> nat)
    requires SameFacts(p, q, rename) && SameIds(p, q, rename) && GroupsReady(p)
    requires forall i :: 0 <= i < |q.groups| ==> GroupKnown(q.roots, q.groups[i])
    ensures multiset(Mapped(ArrangedAll(env, p), BlankGroup)) == multiset(Mapped(ArrangedAll(env, q), BlankGroup))
  {
    var s, t := Mapped(ArrangedAll(env, p), BlankGroup), Mapped(ArrangedAll(env, q), BlankGroup);
    var order := FindAlong(p.groups, FactsOf(rename), q.groups, FactsOf(Same));
    assert |s| == |p.groups| && |t| == |q.groups|;
    hide ArrangedAll, Arranged, BlankGroup, FactsOf, GroupKnown, SameFacts, SameIds, KeysDistinct, SortedRoots, Mapped;
    forall k | 0 <= k < |t| ensures t[k] == s[order[k]] {
      FaceAt(env, p, order[k]);
      FaceAt(env, q, k);
      SameArranged(env, p, q, rename, p.groups[order[k]], q.groups[k]);
    }
    RearrangedMultiset(s, t, order);
  }

  lemma FaceAt(env: Env, d: Doc, i: nat)
    requires i < |d.groups|
    ensures |Mapped(ArrangedAll(env, d), BlankGroup)| == |d.groups|
    ensures Mapped(ArrangedAll(env, d), BlankGroup)[i] == BlankGroup(Arranged(env, SortedRoots(d.roots), d.groups[i]))
  {
    ArrangedAt(env, d, i);
    hide ArrangedAll, Arranged, BlankGroup;
  }

  lemma KeepersStayDistinct(env: Env, p: Doc)
    requires GroupsReady(p)
    ensures KeysDistinct(ArrangedAll(env, p), KeeperKey)
  {
    var all := ArrangedAll(env, p);
    assert |all| == |p.groups|;
    hide ArrangedAll, HasRoot, NewId, SortedRoots, Shown;
    forall i, j | 0 <= i < j < |all| ensures KeeperKey(all[i]) != KeeperKey(all[j]) {
      ArrangedAt(env, p, i);
      ArrangedAt(env, p, j);
      ArrangedIs(env, SortedRoots(p.roots), p.groups[i]);
      ArrangedIs(env, SortedRoots(p.roots), p.groups[j]);
      var x, y := p.groups[i].keeper, p.groups[j].keeper;
      assert KeeperKey(p.groups[i]) != KeeperKey(p.groups[j]);
      assert HasRoot(p.roots, x.root) && HasRoot(p.roots, y.root);
      KeeperOf(env, SortedRoots(p.roots), p.groups[i]);
      KeeperOf(env, SortedRoots(p.roots), p.groups[j]);
      if NewId(SortedRoots(p.roots), x.root) == NewId(SortedRoots(p.roots), y.root) {
        NewIdInjective(p.roots, x.root, y.root);
      }
    }
  }

  lemma KeeperOf(env: Env, ordered: seq<Root>, g: Group)
    ensures KeeperKey(Arranged(env, ordered, g)) == Key(0, NewId(ordered, g.keeper.root), [], g.keeper.file, 0)
  {
    ArrangedIs(env, ordered, g);
    var a := Arranged(env, ordered, g);
    hide Arranged, NewId, Shown;
    assert a.(members := []).keeper == a.keeper;
  }

  lemma StampedGroupFaces(env: Env, g: Group, h: Group)
    requires BlankGroup(g) == BlankGroup(h)
    ensures StampGroup(env)(g) == StampGroup(env)(h)
  {
    assert GroupElements(g) == GroupElements(h) by {
      assert g.matchKind == h.matchKind && g.keeper == h.keeper && g.members == h.members;
    }
    assert RemainingRoots(g) == RemainingRoots(h);
    hide GroupElements, RemainingRoots;
  }

  lemma SameFinalGroups(env: Env, p: Doc, q: Doc, rename: nat -> nat)
    requires SameFacts(p, q, rename) && SameIds(p, q, rename) && GroupsReady(p)
    requires forall i :: 0 <= i < |q.groups| ==> GroupKnown(q.roots, q.groups[i])
    ensures Mapped(SortBy(ArrangedAll(env, p), KeeperKey), StampGroup(env))
         == Mapped(SortBy(ArrangedAll(env, q), KeeperKey), StampGroup(env))
  {
    ArrangedFaces(env, p, q, rename);
    KeepersStayDistinct(env, p);
    assert Carries(BlankGroup, KeeperKey, KeeperKey);
    hide ArrangedAll, SameFacts, SameIds, GroupsReady, GroupKnown, Carries, SortBy, KeeperKey, BlankGroup, StampGroup;
    var s, t := ArrangedAll(env, p), ArrangedAll(env, q);
    SortedFaces(s, BlankGroup, t, BlankGroup, KeeperKey, KeeperKey);
    var x, y := SortBy(s, KeeperKey), SortBy(t, KeeperKey);
    assert |Mapped(x, BlankGroup)| == |Mapped(y, BlankGroup)|;
    forall k | 0 <= k < |x| ensures StampGroup(env)(x[k]) == StampGroup(env)(y[k]) {
      assert Mapped(x, BlankGroup)[k] == Mapped(y, BlankGroup)[k];
      StampedGroupFaces(env, x[k], y[k]);
    }
  }

  // ----- excluded entries

  function ShownEntry(env: Env, ordered: seq<Root>): Excluded -> Excluded {
    (e: Excluded) => ShowExcluded(env)(RemapExcluded(ordered)(e))
  }

  lemma ShownExcluded(env: Env, p: Doc, q: Doc, rename: nat -> nat)
    requires SameIds(p, q, rename) && RefsKnown(p)
    ensures Mapped(Mapped(p.excluded, RemapExcluded(SortedRoots(p.roots))), ShowExcluded(env))
         == Mapped(Mapped(p.excluded, BareExcluded(rename)), ShownEntry(env, SortedRoots(q.roots)))
  {
    hide HasRoot, SortedRoots, NewId, Shown;
    forall k | 0 <= k < |p.excluded|
      ensures ShownEntry(env, SortedRoots(p.roots))(p.excluded[k])
           == ShownEntry(env, SortedRoots(q.roots))(BareExcluded(rename)(p.excluded[k]))
    {
      var id := p.excluded[k].root;
      assert HasRoot(p.roots, id) && NewId(SortedRoots(p.roots), id) == NewId(SortedRoots(q.roots), rename(id));
      ShownEntryIs(env, SortedRoots(p.roots), p.excluded[k]);
      ShownEntryIs(env, SortedRoots(q.roots), BareExcluded(rename)(p.excluded[k]));
    }
    hide ShowExcluded, RemapExcluded, BareExcluded, RefsKnown, SameIds;
  }

  lemma ShownEntryIs(env: Env, ordered: seq<Root>, e: Excluded)
    ensures ShownEntry(env, ordered)(e) == e.(root := NewId(ordered, e.root), display := Shown(env, e.parts))
  {
    hide NewId, Shown;
    var r := RemapExcluded(ordered)(e);
    assert r == e.(root := NewId(ordered, e.root));
  }

  function ExcludedAll(env: Env, d: Doc): seq<Excluded> {
    Mapped(Mapped(d.excluded, RemapExcluded(SortedRoots(d.roots))), ShowExcluded(env))
  }

  lemma ExcludedStayDistinct(env: Env, p: Doc)
    requires IdsDistinct(p.roots) && RefsKnown(p) && KeysDistinct(p.excluded, ExcludedKey)
    ensures KeysDistinct(ExcludedAll(env, p), ExcludedKey)
  {
    var all := ExcludedAll(env, p);
    assert |all| == |p.excluded|;
    hide HasRoot, SortedRoots, NewId, Shown, IdsDistinct;
    forall i, j | 0 <= i < j < |all| ensures ExcludedKey(all[i]) != ExcludedKey(all[j]) {
      var x, y := p.excluded[i], p.excluded[j];
      assert ExcludedKey(x) != ExcludedKey(y);
      assert HasRoot(p.roots, x.root) && HasRoot(p.roots, y.root);
      ShownEntryIs(env, SortedRoots(p.roots), x);
      ShownEntryIs(env, SortedRoots(p.roots), y);
      if NewId(SortedRoots(p.roots), x.root) == NewId(SortedRoots(p.roots), y.root) {
        NewIdInjective(p.roots, x.root, y.root);
      }
    }
  }

  lemma SameFinalExcluded(env: Env, p: Doc, q: Doc, rename: nat -> nat)
    requires SameFacts(p, q, rename) && SameIds(p, q, rename) && RefsKnown(p) && RefsKnown(q)
    requires IdsDistinct(p.roots) && KeysDistinct(p.excluded, ExcludedKey)
    ensures SortBy(ExcludedAll(env, p), ExcludedKey) == SortBy(ExcludedAll(env, q), ExcludedKey)
  {
    SameItself(q);
    ShownExcluded(env, p, q, rename);
    ShownExcluded(env, q, q, Same);
    ExcludedStayDistinct(env, p);
    hide SameIds, RefsKnown, SortedRoots, IdsDistinct, Mapped, SortBy, ShownEntry, KeysDistinct, ExcludedKey;
    MapKeepsMultiset(Mapped(p.excluded, BareExcluded(rename)), Mapped(q.excluded, BareExcluded(Same)),
                     ShownEntry(env, SortedRoots(q.roots)));
    assert multiset(ExcludedAll(env, p)) == multiset(ExcludedAll(env, q));
    DistinctKeysTell(ExcludedAll(env, p), ExcludedKey);
    SortForgetsOrder(ExcludedAll(env, p), ExcludedAll(env, q), ExcludedKey);
  }

  // ----- the checks

  ghost predicate FactsHex(g: GroupFacts) {
    AllHex(g.keeper.parts) && forall m :: m in g.members ==> AllHex(m.entry.parts)
  }

  lemma FaceHex(rename: nat -> nat, ordered: seq<Root>, g: Group)
    ensures GroupHex(RemapGroup(ordered)(g)) <==> FactsHex(FactsOf(rename)(g))
  {
    var faces := Mapped(g.members, BareMember(rename));
    hide AllHex, NewId;
    var remapped := RemapGroup(ordered)(g);
    assert |faces| == |g.members| == |remapped.members|;
    forall k | 0 <= k < |faces| ensures faces[k].entry.parts == remapped.members[k].entry.parts {
      assert remapped.members[k] == RemapMember(ordered)(g.members[k]);
    }
    hide Mapped, RemapMember;
    assert forall i :: 0 <= i < |faces| ==> faces[i] in multiset(faces);
    assert forall m :: m in multiset(faces) ==> m in faces;
  }

  lemma HexByGroups(env: Env, d: Doc, rename: nat -> nat)
    ensures (forall i :: 0 <= i < |d.groups| ==> GroupHex(RootPass(env, d).groups[i]))
       <==> (forall x :: x in multiset(Mapped(d.groups, FactsOf(rename))) ==> FactsHex(x))
  {
    var faces := Mapped(d.groups, FactsOf(rename));
    assert |faces| == |d.groups|;
    hide FactsHex, GroupHex, FactsOf, RemapGroup, SortedRoots;
    forall i | 0 <= i < |faces| ensures FactsHex(faces[i]) <==> GroupHex(RootPass(env, d).groups[i]) {
      FaceHex(rename, SortedRoots(d.roots), d.groups[i]);
    }
    hide RootPass, Mapped;
    if forall i :: 0 <= i < |d.groups| ==> GroupHex(RootPass(env, d).groups[i]) {
      assert forall x :: x in multiset(faces) ==> x in faces;
    }
    assert forall i :: 0 <= i < |faces| ==> faces[i] in multiset(faces);
  }

  lemma HexByExcluded(env: Env, d: Doc, rename: nat -> nat)
    ensures (forall i :: 0 <= i < |d.excluded| ==> AllHex(RootPass(env, d).excluded[i].parts))
       <==> (forall x :: x in multiset(Mapped(d.excluded, BareExcluded(rename))) ==> AllHex(x.parts))
  {
    var faces := Mapped(d.excluded, BareExcluded(rename));
    assert |faces| == |d.excluded|;
    hide AllHex, SortedRoots, NewId;
    forall i | 0 <= i < |faces| ensures faces[i].parts == RootPass(env, d).excluded[i].parts {
      assert RootPass(env, d).excluded[i] == RemapExcluded(SortedRoots(d.roots))(d.excluded[i]);
    }
    hide RootPass, Mapped;
    if forall i :: 0 <= i < |d.excluded| ==> AllHex(RootPass(env, d).excluded[i].parts) {
      assert forall x :: x in multiset(faces) ==> x in faces;
    }
    assert forall i :: 0 <= i < |faces| ==> faces[i] in multiset(faces);
  }

  ghost predicate ShapedHex(env: Env, d: Doc) {
    var r := RootPass(env, d);
    DisplayOk(r.(actions := ConflictPass(r.actions)))
  }

  lemma ShapedHexIs(env: Env, d: Doc)
    ensures ShapedHex(env, d) <==>
      ((forall i :: 0 <= i < |RootPass(env, d).actions| ==> OpHex(ConflictPass(RootPass(env, d).actions)[i].op))
       && (forall i :: 0 <= i < |d.groups| ==> GroupHex(RootPass(env, d).groups[i]))
       && (forall i :: 0 <= i < |d.excluded| ==> AllHex(RootPass(env, d).excluded[i].parts)))
  {
    var r := RootPass(env, d);
    assert |r.groups| == |d.groups| && |r.excluded| == |d.excluded|;
    hide OpHex, GroupHex, AllHex, ConflictPass, RootPass;
  }

  lemma SameShapedHex(env: Env, p: Doc, q: Doc, rename: nat -> nat, order: seq<nat>)
    requires SameFacts(p, q, rename) && SourcesDistinct(RootPass(env, p).actions)
    requires Along(RootPass(env, p).actions, BareAction(Same), RootPass(env, q).actions, BareAction(Same), order)
    ensures ShapedHex(env, p) <==> ShapedHex(env, q)
  {
    hide RootPass, OpHex, GroupHex, AllHex, Along, SourcesDistinct, ConflictPass, ShapedHex, Mapped, FactsHex;
    SameActionsHex(RootPass(env, p).actions, RootPass(env, q).actions, order);
    HexByGroups(env, p, rename);
    HexByGroups(env, q, Same);
    HexByExcluded(env, p, rename);
    HexByExcluded(env, q, Same);
    ShapedHexIs(env, p);
    ShapedHexIs(env, q);
  }

  lemma SourcesStayDistinct(env: Env, p: Doc)
    requires RootsOk(p) && SourcesDistinct(p.actions) && MkdirsLegal(p.actions)
    ensures SourcesDistinct(RootPass(env, p).actions) && MkdirsLegal(RootPass(env, p).actions)
  {
    var x := RootPass(env, p).actions;
    assert |x| == |p.actions|;
    hide HasRoot, SortedRoots, NewId, LegalParts, IdsDistinct;
    forall i | 0 <= i < |x| ensures x[i].op == RemapOp(p.actions[i].op, SortedRoots(p.roots)) {}
    hide RootPass;
    forall i, j | 0 <= i < j < |x| && !x[i].op.Mkdir? && !x[j].op.Mkdir?
      ensures KeyOf(x[i].op.source) != KeyOf(x[j].op.source)
    {
      var a, b := p.actions[i].op.source, p.actions[j].op.source;
      assert KeyOf(a) != KeyOf(b);
      assert OpKnown(p.roots, p.actions[i].op) && OpKnown(p.roots, p.actions[j].op);
      if NewId(SortedRoots(p.roots), a.root) == NewId(SortedRoots(p.roots), b.root) {
        NewIdInjective(p.roots, a.root, b.root);
      }
    }
  }

  // ----- the result

  lemma CanonicalIs(env: Env, d: Doc)
    ensures Canonical(env, d).kind == d.kind && Canonical(env, d).roots == RootPass(env, d).roots
    ensures Canonical(env, d).actions == ActionPass(env, Mapped(ConflictPass(RootPass(env, d).actions), ShowAction(env)))
    ensures Canonical(env, d).groups == Mapped(SortBy(ArrangedAll(env, d), KeeperKey), StampGroup(env))
    ensures Canonical(env, d).excluded == SortBy(ExcludedAll(env, d), ExcludedKey)
    ensures Canonical(env, d).summary
         == SummaryOf(Canonical(env, d).actions, Canonical(env, d).groups, Canonical(env, d).excluded)
  {
  }

  // Same facts, same result, whatever the order, the root ids and the derived fields.
  lemma PresentationFree(env: Env, p: Doc, q: Doc, rename: nat -> nat)
    requires SameFacts(p, q, rename) && Injective(rename) && WellKeyed(p)
    ensures Canonicalize(env, p) == Canonicalize(env, q)
  {
    FactsGiveIds(env, p, q, rename);
    SameRootsOk(p, q, rename);
    if RootsOk(p) {
      SourcesStayDistinct(env, p);
      SameActionsAfter(env, p, q, rename);
      var x, y := RootPass(env, p).actions, RootPass(env, q).actions;
      var order := FindAlong(x, BareAction(Same), y, BareAction(Same));
      SameConflictsOk(x, y, order);
      SameShapedHex(env, p, q, rename, order);
      SameCanonical(env, p, q, rename, order);
    }
    hide RootsOk, RootPass, ConflictsOk, ShapedHex, ConflictPass, DisplayOk, Canonical;
  }

  lemma SameCanonical(env: Env, p: Doc, q: Doc, rename: nat -> nat, order: seq<nat>)
    requires SameFacts(p, q, rename) && SameIds(p, q, rename) && WellKeyed(p) && RootsOk(p) && RootsOk(q)
    requires RootPass(env, p).roots == RootPass(env, q).roots
    requires SourcesDistinct(RootPass(env, p).actions) && MkdirsLegal(RootPass(env, p).actions)
    requires Along(RootPass(env, p).actions, BareAction(Same), RootPass(env, q).actions, BareAction(Same), order)
    ensures Canonical(env, p) == Canonical(env, q)
  {
    assert GroupsReady(p);
    hide SameIds, Along, Canonical, RootPass, ActionPass, ArrangedAll, ExcludedAll, GroupsReady, SummaryOf, ConflictPass;
    SameFinalActions(env, RootPass(env, p).actions, RootPass(env, q).actions, order);
    SameFinalGroups(env, p, q, rename);
    SameFinalExcluded(env, p, q, rename);
    CanonicalIs(env, p);
    CanonicalIs(env, q);
  }
}
