/**
 Plans the load-time checks and the structural rules accept (src/core/plan.rs) that still lose
 what a floor protects, or cannot be carried out: one for each condition the rules leave out.
 */
module PlanGaps {
  import opened Basics
  import opened Order
  import opened Hex
  import opened Permute
  import opened Contest
  import opened PlanDoc
  import opened PlanNormal
  import opened PlanRules
  import opened PlanClashes
  import opened Execute
  import opened Quarantining

  // ----- files and roots

  const A: byte := 97
  const B: byte := 98
  const C: byte := 99

  // The content hash "b3:" and 64 times one digit.
  function Hash(digit: byte): Text {
    [98, 51, 58] + seq(64, i => digit)
  }

  // A file called by one letter.
  function File(env: Env, root: nat, file: int, name: byte, content: byte): SourceRef {
    SourceRef(root, file, [ToHex([name])], env.lossy([name]), Hash(content), 0, None)
  }

  function Bound(): Option<SourceBinding> {
    Some(SourceBinding([], [], 2, Dir, NoFingerprint))
  }

  // Two sources, and a root for what is put aside or moved.
  function ThreeRoots(env: Env, last: RootRole): seq<Root> {
    [Root(0, SourceRole, env.lossy([A]), ToHex([A]), Bound()), Root(1, SourceRole, env.lossy([B]), ToHex([B]), Bound()),
     Root(2, last, env.lossy([C]), ToHex([C]), None)]
  }

  lemma Letter(b: byte)
    ensures IsHex(ToHex([b])) && Bytes(ToHex([b])) == [b]
    ensures AllHex([ToHex([b])]) && Joined([ToHex([b])]) == [b]
    ensures b >= 97 ==> PartsOk([ToHex([b])])
  {
    UnhexInvertsToHex([b]);
  }

  lemma HashIs(digit: byte)
    requires digit == A || digit == B
    ensures HashOk(Hash(digit))
  {
    assert Hash(digit)[..3] == [98, 51, 58];
    assert Hash(digit)[3..] == seq(64, i => digit);
  }

  lemma HashesDiffer()
    ensures Hash(A) != Hash(B)
  {
    assert Hash(A)[3] != Hash(B)[3];
  }

  lemma FileIs(env: Env, root: nat, file: int, name: byte, content: byte)
    requires (name == A || name == B) && (content == A || content == B)
    ensures var f := File(env, root, file, name, content);
            && SourceNormal(env, f) && PartsOk(f.parts) && HashOk(f.hash) && f.root == root && f.hash == Hash(content)
            && PlaceOf(f) == Place(root, [name]) && KeyOf(f) == EntryKey(root, file)
            && ListingOf(f) == Listing(Place(root, [name]), Hash(content))
  {
    Letter(name);
    HashIs(content);
    hide Hash, HashOk, Joined;
  }

  lemma RootsAre(env: Env, last: RootRole)
    requires last != SourceRole
    ensures RootsNormal(env, ThreeRoots(env, last)) && PathsDistinct(ThreeRoots(env, last))
    ensures forall i :: 0 <= i < 3 ==> RootOk(ThreeRoots(env, last)[i]) && ThreeRoots(env, last)[i].rootId == i
    ensures forall id: nat :: id < 3 ==> HasRoot(ThreeRoots(env, last), id)
    ensures forall id: nat :: IsSource(ThreeRoots(env, last), id) <==> id < 2
    ensures FirstRoot(ThreeRoots(env, last), 0) == Some(ThreeRoots(env, last)[0])
  {
    var roots := ThreeRoots(env, last);
    Letter(A);
    Letter(B);
    Letter(C);
    UnhexInvertsToHex([A]);
    UnhexInvertsToHex([B]);
    UnhexInvertsToHex([C]);
    hide ToHex, IsHex, Decode;
    assert roots[0].rootId == 0 && roots[1].rootId == 1 && roots[2].rootId == 2;
    assert forall r :: r in roots <==> r == roots[0] || r == roots[1] || r == roots[2];
    assert LexLe([A], [B]);
  }

  // ----- dedup plans

  function Member(s: SourceRef, disposition: Disposition): GroupMember {
    GroupMember(s, disposition, [], disposition == Quarantined, None, false, false)
  }

  function Grouped(env: Env, kind: MatchKind, keeper: SourceRef, members: seq<GroupMember>, required: nat): Group {
    StampGroup(env)(Group([], kind, 0, keeper, [], members, ReplicaFloor(required, required, 0), 0, 0))
  }

  // A file put aside on account of a group.
  function Away(env: Env, g: Group, s: SourceRef): Action {
    var op := Op.Quarantine(DestPath(2, [ToHex([C])], env.lossy([C])), s, g.groupId, Slot(env, g.groupId, s));
    Action(ActionId(env, op), 0, op)
  }

  function DedupPlan(env: Env, groups: seq<Group>, actions: seq<Action>): Doc {
    Doc(Deduping, ThreeRoots(env, QuarantineRole), actions, groups, [], SummaryOf(actions, groups, []))
  }

  lemma GroupedIs(env: Env, kind: MatchKind, keeper: SourceRef, members: seq<GroupMember>, required: nat)
    requires SourceNormal(env, keeper) && |members| <= 1 && (members != [] ==> SourceNormal(env, members[0].entry))
    ensures var g := Grouped(env, kind, keeper, members, required);
            && GroupNormal(env, g) && g.keeper == keeper && g.members == members && g.floor.required == required
            && g.floor.remainingAfter == |RemainingRoots(g)|
  {
    hide SourceNormal, GroupElements;
    StampKeeps(env, Group([], kind, 0, keeper, [], members, ReplicaFloor(required, required, 0), 0, 0));
    hide GroupId;
  }

  lemma StampKeeps(env: Env, raw: Group)
    ensures var g := StampGroup(env)(raw);
            && g.keeper == raw.keeper && g.members == raw.members && g.floor.required == raw.floor.required
            && g.groupId == GroupId(env, g) && g.floor.remainingAfter == |RemainingRoots(g)|
  {
    var g := StampGroup(env)(raw);
    assert GroupElements(g) == GroupElements(raw);
    assert RemainingRoots(g) == RemainingRoots(raw);
    hide GroupElements, RemainingRoots;
  }

  ghost predicate InThree(g: Group) {
    g.keeper.root < 3 && forall k :: 0 <= k < |g.members| ==> g.members[k].entry.root < 3
  }

  ghost predicate PlainAction(env: Env, actions: seq<Action>) {
    |actions| <= 1
    && (actions != [] ==> actions[0].op.Quarantine? && ActionNormal(env, actions[0], 0)
                          && actions[0].op.dest.root == 2 && actions[0].op.source.root < 3)
  }

  ghost predicate Plain(env: Env, groups: seq<Group>, actions: seq<Action>) {
    GroupsNormal(env, groups) && (forall i :: 0 <= i < |groups| ==> InThree(groups[i])) && PlainAction(env, actions)
  }

  lemma PlainActions(env: Env, groups: seq<Group>, actions: seq<Action>)
    requires Plain(env, groups, actions)
    ensures ActionsNormal(env, actions) && ConflictsNormal(actions)
  {
    hide ActionNormal, GroupsNormal, Listed, InThree, ConflictNormal;
  }

  lemma AwayIs(env: Env, g: Group, s: SourceRef)
    requires SourceNormal(env, s)
    ensures s.root < 3 ==> PlainAction(env, [Away(env, g, s)])
    ensures var op := Away(env, g, s).op; op.Quarantine? && op.source == s && op.groupId == g.groupId && op.dest.root == 2
    ensures PartsOk(Away(env, g, s).op.dest.parts)
  {
    hide SourceNormal, ActionId, Slot;
    Letter(C);
  }

  lemma InThreeKnown(env: Env, g: Group)
    requires InThree(g)
    ensures GroupKnown(ThreeRoots(env, QuarantineRole), g)
  {
    RootsAre(env, QuarantineRole);
    hide ThreeRoots, RootsNormal, RootOk, PathsDistinct, HasRoot, IsSource, FirstRoot;
  }

  lemma PlainKnown(env: Env, groups: seq<Group>, actions: seq<Action>, i: nat)
    requires Plain(env, groups, actions) && i < |actions|
    ensures OpKnown(ThreeRoots(env, QuarantineRole), actions[i].op)
  {
    RootsAre(env, QuarantineRole);
    hide ThreeRoots, RootsNormal, RootOk, PathsDistinct, HasRoot, IsSource, FirstRoot, GroupsNormal, ActionNormal, InThree;
  }

  lemma PlainRefs(env: Env, groups: seq<Group>, actions: seq<Action>)
    requires Plain(env, groups, actions)
    ensures RefsKnown(DedupPlan(env, groups, actions))
  {
    hide GroupsNormal, ActionNormal, ThreeRoots, SummaryOf, InThree, GroupKnown, OpKnown;
    forall i: nat | i < |actions| ensures OpKnown(ThreeRoots(env, QuarantineRole), actions[i].op) {
      PlainKnown(env, groups, actions, i);
    }
    forall i: nat | i < |groups| ensures GroupKnown(ThreeRoots(env, QuarantineRole), groups[i]) {
      InThreeKnown(env, groups[i]);
    }
  }

  lemma PlainParts(env: Env, groups: seq<Group>, actions: seq<Action>)
    ensures var d := DedupPlan(env, groups, actions);
            && d.kind == Deduping && d.roots == ThreeRoots(env, QuarantineRole) && d.actions == actions
            && d.groups == groups && d.excluded == [] && d.summary == SummaryOf(actions, groups, [])
  {
  }

  lemma NothingExcluded(env: Env)
    ensures ExcludedNormal(env, [])
  {
  }

  lemma PlainVerified(env: Env, groups: seq<Group>, actions: seq<Action>)
    requires Plain(env, groups, actions)
    ensures Verified(env, DedupPlan(env, groups, actions))
  {
    hide RefsKnown, ActionsNormal, ConflictsNormal, RootsNormal, GroupsNormal, ExcludedNormal, ThreeRoots, SummaryOf;
    hide DedupPlan, ActionNormal, HasRoot, PathsDistinct, RootOk, IsSource, InThree, FirstRoot, Verified;
    PlainParts(env, groups, actions);
    PlainActions(env, groups, actions);
    PlainRefs(env, groups, actions);
    NothingExcluded(env);
    RootsAre(env, QuarantineRole);
    NormalIsVerified(env, DedupPlan(env, groups, actions));
  }

  // What the rules ask of the one action.
  ghost predicate Backing(groups: seq<Group>, op: Op) {
    op.Quarantine? && PartsOk(op.dest.parts) && PartsOk(op.source.parts) && HashOk(op.source.hash) && Backed(groups, op)
  }

  lemma BackingIsOk(env: Env, groups: seq<Group>, actions: seq<Action>)
    requires Plain(env, groups, actions) && actions != [] && Backing(groups, actions[0].op)
    ensures ActionOk(DedupPlan(env, groups, actions), actions[0].op)
  {
    PlainParts(env, groups, actions);
    PlainKnown(env, groups, actions, 0);
    hide GroupsNormal, ActionNormal, DedupPlan, ThreeRoots, InThree, OpKnown, Backed, PartsOk, HashOk, ReadsFrom;
  }

  lemma PlainAcceptable(env: Env, groups: seq<Group>, actions: seq<Action>)
    requires Plain(env, groups, actions)
    requires forall i :: 0 <= i < |groups| ==> groups[i].floor.remainingAfter >= groups[i].floor.required
    requires actions != [] ==> Backing(groups, actions[0].op)
    ensures Acceptable(DedupPlan(env, groups, actions))
  {
    hide GroupsNormal, ActionNormal, ThreeRoots, SummaryOf, DedupPlan, InThree, RootsNormal, IsSource, FirstRoot;
    hide HasRoot, PathsDistinct, RootOk, Backing, ActionOk;
    PlainParts(env, groups, actions);
    if actions != [] { BackingIsOk(env, groups, actions); }
    RootsAre(env, QuarantineRole);
    ThreeAre(env, QuarantineRole);
  }

  lemma ThreeAre(env: Env, last: RootRole)
    ensures |ThreeRoots(env, last)| == 3
  {
  }

  lemma NoAction(env: Env)
    ensures PlainAction(env, [])
  {
  }

  lemma OneGroupPlain(env: Env, g: Group, actions: seq<Action>)
    requires GroupNormal(env, g) && InThree(g) && PlainAction(env, actions)
    ensures Plain(env, [g], actions)
  {
    hide GroupNormal, InThree, ActionNormal;
  }

  lemma TwoGroupsPlain(env: Env, g: Group, h: Group, actions: seq<Action>)
    requires GroupNormal(env, g) && GroupNormal(env, h) && InThree(g) && InThree(h) && PlainAction(env, actions)
    requires EntryLe(KeyOf(g.keeper), KeyOf(h.keeper))
    ensures Plain(env, [g, h], actions)
  {
    hide GroupNormal, InThree, ActionNormal, EntryLe, KeyOf;
  }

  // ----- what such plans list

  lemma OneGroupLists(d: Doc, g: Group)
    requires d.groups == [g] && d.excluded == []
    ensures Listings(d) == {ListingOf(g.keeper)} + set m | m in g.members :: ListingOf(m.entry)
    ensures Named(d) == {g.keeper} + (set m | m in g.members :: m.entry) + Sources(d.actions)
    ensures EntriesDisjoint(d.groups) <==> GroupEntriesDistinct(g)
  {
    assert forall x :: x in d.groups <==> x == g;
    hide ListingOf, GroupEntriesDistinct;
  }

  lemma OneMember(g: Group, m: GroupMember)
    requires g.members == [m]
    ensures (set x | x in g.members :: ListingOf(x.entry)) == {ListingOf(m.entry)}
    ensures (set x | x in g.members :: x.entry) == {m.entry}
    ensures GroupEntriesDistinct(g) <==> KeyOf(g.keeper) != KeyOf(m.entry)
  {
    assert g.members[0] == m && forall x :: x in g.members <==> x == m;
    hide ListingOf;
  }

  lemma TwoGroupsList(d: Doc, g: Group, h: Group)
    requires d.groups == [g, h] && d.excluded == [] && h.members == []
    ensures Listings(d) == {ListingOf(g.keeper), ListingOf(h.keeper)} + set m | m in g.members :: ListingOf(m.entry)
  {
    hide ListingOf;
    assert d.groups[0] == g && d.groups[1] == h && forall x :: x in d.groups <==> x == g || x == h;
  }

  lemma TwoGroupsName(d: Doc, g: Group, h: Group)
    requires d.groups == [g, h] && h.members == []
    ensures Named(d) == {g.keeper, h.keeper} + (set m | m in g.members :: m.entry) + Sources(d.actions)
  {
    hide Sources;
    assert d.groups[0] == g && d.groups[1] == h && forall x :: x in d.groups <==> x == g || x == h;
  }

  lemma OneAway(env: Env, g: Group, s: SourceRef)
    ensures Sources([Away(env, g, s)]) == {s} && Taken([Away(env, g, s)]) == {PlaceOf(s)}
    ensures Sources([]) == {} && Taken([]) == {}
  {
    var a := Away(env, g, s);
    assert forall x :: x in [a] <==> x == a;
    hide Joined, ActionId, Slot;
  }

  lemma AwayBacked(env: Env, groups: seq<Group>, g: Group, s: SourceRef, entry: SourceRef)
    requires groups != [] && groups[0] == g && g.members == [Member(entry, Quarantined)] && KeyOf(entry) == KeyOf(s)
    requires SourceNormal(env, s) && PartsOk(s.parts) && HashOk(s.hash)
    ensures Backing(groups, Away(env, g, s).op)
  {
    AwayIs(env, g, s);
    hide Away, SourceNormal, PartsOk, HashOk;
    assert FirstGroup(groups, g.groupId) == Some(g);
  }

  lemma PairFits(s: SourceRef, t: SourceRef)
    requires KeyOf(s) == KeyOf(t) <==> PlaceOf(s) == PlaceOf(t)
    ensures OnePlaceEach({s, t})
  {
    hide PlaceOf;
  }

  lemma RootsKept(env: Env, d: Doc, g: Group)
    requires d.roots == ThreeRoots(env, QuarantineRole) && g.keeper.root < 2
    requires forall k :: 0 <= k < |g.members| ==> g.members[k].disposition == Quarantined || g.members[k].entry.root < 2
    ensures KeptInSources(d, g)
  {
    RootsAre(env, QuarantineRole);
    hide ThreeRoots, RootsNormal, RootOk, PathsDistinct, HasRoot, FirstRoot, IsSource;
  }

  // With every listed copy of the keeper's content at one place, one root at most is safe, and
  // none is if that place is emptied or in no source.
  lemma OneCopyLoses(d: Doc, g: nat, p: Place)
    requires g < |d.groups| && forall l :: l in Listings(d) && l.hash == d.groups[g].keeper.hash ==> l.place == p
    requires d.groups[g].floor.required > if p in Taken(d.actions) || !IsSource(d.roots, p.root) then 0 else 1
    ensures !FloorKept(d, g)
  {
    var content := d.groups[g].keeper.hash;
    KeptAtSafeRoots(d, g);
    hide FloorKept, Listings, IsSource, Taken;
    assert SafeRoots(d, content) <= {p.root};
    if p in Taken(d.actions) || !IsSource(d.roots, p.root) {
      assert SafeRoots(d, content) == {};
    } else {
      SubsetSize(SafeRoots(d, content), {p.root});
    }
  }

  // What is kept under the keeper's name may be other data: a near variant in a second source
  // is counted for a floor of two, and the keeper's content is in one.
  function NearVariant(env: Env): Doc {
    DedupPlan(env, [VariantGroup(env)], [])
  }

  function VariantGroup(env: Env): Group {
    Grouped(env, Near, File(env, 0, 1, A, A), [Member(File(env, 1, 2, B, B), Leave)], 2)
  }

  lemma VariantGroupIs(env: Env)
    ensures var g := VariantGroup(env);
            && GroupNormal(env, g) && InThree(g) && g.keeper == File(env, 0, 1, A, A)
            && g.members == [Member(File(env, 1, 2, B, B), Leave)] && g.members[0].entry == File(env, 1, 2, B, B) && g.floor.required == g.floor.remainingAfter == 2
  {
    var k, m := File(env, 0, 1, A, A), Member(File(env, 1, 2, B, B), Leave);
    FileIs(env, 0, 1, A, A);
    FileIs(env, 1, 2, B, B);
    hide SourceNormal, Hash, PlaceOf;
    GroupedIs(env, Near, k, [m], 2);
    hide Grouped, GroupNormal;
    var g := Grouped(env, Near, k, [m], 2);
    assert g.members[0] == m;
    assert RemainingRoots(g) == {0, 1} by { assert m in g.members; }
  }

  lemma NearVariantIs(env: Env)
    ensures NearVariant(env) == DedupPlan(env, [VariantGroup(env)], [])
  {
  }

  lemma NearVariantAccepted(env: Env)
    ensures Acceptable(NearVariant(env)) && Verified(env, NearVariant(env))
  {
    hide *;
    var g := VariantGroup(env);
    NearVariantIs(env);
    NoAction(env);
    VariantGroupIs(env);
    OneGroupPlain(env, g, []);
    PlainVerified(env, [g], []);
    PlainAcceptable(env, [g], []);
  }

  lemma NearVariantLists(env: Env)
    ensures var d, k, m := NearVariant(env), File(env, 0, 1, A, A), File(env, 1, 2, B, B);
            && d.groups == [VariantGroup(env)] && d.roots == ThreeRoots(env, QuarantineRole)
            && Listings(d) == {ListingOf(k), ListingOf(m)} && Named(d) == {k, m}
            && Taken(d.actions) == {} && EntriesDisjoint(d.groups)
  {
    var d, g := NearVariant(env), VariantGroup(env);
    VariantGroupIs(env);
    PlainParts(env, [g], []);
    hide GroupNormal, InThree, VariantGroup, DedupPlan, Hash, ListingOf, ThreeRoots, Listings, Named, EntriesDisjoint;
    OneGroupLists(d, g);
    OneMember(g, g.members[0]);
  }

  lemma NearVariantMisleads(env: Env)
    ensures var d := NearVariant(env);
            && Acceptable(d) && Verified(env, d) && |d.groups| == 1 && !FloorKept(d, 0)
            && EntriesDisjoint(d.groups) && OnePlaceEach(Named(d)) && KeptInSources(d, d.groups[0])
  {
    hide *;
    NearVariantAccepted(env);
    NearVariantLists(env);
    VariantGroupIs(env);
    FileIs(env, 0, 1, A, A);
    FileIs(env, 1, 2, B, B);
    HashesDiffer();
    OneCopyLoses(NearVariant(env), 0, Place(0, [A]));
    RootsKept(env, NearVariant(env), VariantGroup(env));
    PairFits(File(env, 0, 1, A, A), File(env, 1, 2, B, B));
  }

  // The keeper itself may be in no source.
  function StrayKeeper(env: Env): Doc {
    DedupPlan(env, [StrayGroup(env)], [])
  }

  function StrayGroup(env: Env): Group {
    Grouped(env, Exact, File(env, 2, 1, A, A), [], 1)
  }

  lemma StrayGroupIs(env: Env)
    ensures var g := StrayGroup(env);
            && GroupNormal(env, g) && InThree(g) && g.keeper == File(env, 2, 1, A, A) && g.members == []
            && g.floor.required == g.floor.remainingAfter == 1
  {
    FileIs(env, 2, 1, A, A);
    hide SourceNormal, Hash, PlaceOf, PartsOk, HashOk;
    GroupedIs(env, Exact, File(env, 2, 1, A, A), [], 1);
    hide Grouped, GroupNormal;
    assert RemainingRoots(StrayGroup(env)) == {2};
  }

  lemma StrayKeeperIs(env: Env)
    ensures StrayKeeper(env) == DedupPlan(env, [StrayGroup(env)], [])
  {
  }

  lemma StrayKeeperAccepted(env: Env)
    ensures Acceptable(StrayKeeper(env)) && Verified(env, StrayKeeper(env))
  {
    hide *;
    var g := StrayGroup(env);
    StrayKeeperIs(env);
    NoAction(env);
    StrayGroupIs(env);
    OneGroupPlain(env, g, []);
    PlainVerified(env, [g], []);
    PlainAcceptable(env, [g], []);
  }

  lemma StrayKeeperLists(env: Env)
    ensures var d, k := StrayKeeper(env), File(env, 2, 1, A, A);
            && d.groups == [StrayGroup(env)] && d.roots == ThreeRoots(env, QuarantineRole)
            && Listings(d) == {ListingOf(k)} && Named(d) == {k}
            && EntriesDisjoint(d.groups) && KeptAlike(StrayGroup(env))
  {
    var d, g := StrayKeeper(env), StrayGroup(env);
    StrayGroupIs(env);
    PlainParts(env, [g], []);
    OneAway(env, g, g.keeper);
    hide GroupNormal, InThree, StrayGroup, DedupPlan, Hash, ListingOf, ThreeRoots, Listings, Named, EntriesDisjoint, Sources, Taken;
    OneGroupLists(d, g);
  }

  lemma StrayKeeperMisleads(env: Env)
    ensures var d := StrayKeeper(env);
            && Acceptable(d) && Verified(env, d) && |d.groups| == 1 && !FloorKept(d, 0)
            && EntriesDisjoint(d.groups) && OnePlaceEach(Named(d)) && KeptAlike(d.groups[0])
  {
    hide *;
    var k := File(env, 2, 1, A, A);
    FileIs(env, 2, 1, A, A);
    StrayKeeperAccepted(env);
    StrayKeeperLists(env);
    StrayGroupIs(env);
    RootsAre(env, QuarantineRole);
    OneCopyLoses(StrayKeeper(env), 0, Place(2, [A]));
    PairFits(k, k);
    assert {k, k} == {k};
  }

  // A quarantine is matched with its member by entry: it may name the keeper's path.
  function OtherPath(env: Env): Doc {
    DedupPlan(env, [MarkedGroup(env, B)], [Away(env, MarkedGroup(env, B), File(env, 0, 2, A, A))])
  }

  function Other(content: byte): byte {
    if content == B then A else B
  }

  // A keeper, and a variant of it to be put aside.
  function MarkedGroup(env: Env, content: byte): Group {
    Grouped(env, Near, File(env, 0, 1, Other(content), Other(content)),
            [Member(File(env, 0, 2, content, content), Quarantined)], 1)
  }

  lemma MarkedGroupIs(env: Env, content: byte)
    requires content == A || content == B
    ensures var g, other := MarkedGroup(env, content), if content == B then A else B;
            && GroupNormal(env, g) && InThree(g) && g.keeper == File(env, 0, 1, other, other)
            && g.members == [Member(File(env, 0, 2, content, content), Quarantined)] && KeptAlike(g)
            && g.members[0].disposition == Quarantined && g.members[0].entry == File(env, 0, 2, content, content)
            && g.floor.required == g.floor.remainingAfter == 1
  {
    var other := if content == B then A else B;
    var k, m := File(env, 0, 1, other, other), Member(File(env, 0, 2, content, content), Quarantined);
    FileIs(env, 0, 1, other, other);
    FileIs(env, 0, 2, content, content);
    hide SourceNormal, Hash, PlaceOf, PartsOk, HashOk;
    GroupedIs(env, Near, k, [m], 1);
    hide Grouped, GroupNormal;
    var g := Grouped(env, Near, k, [m], 1);
    assert g.members[0] == m && forall x :: x in g.members <==> x == m;
    assert RemainingRoots(g) == {0};
  }

  lemma OtherPathIs(env: Env)
    ensures OtherPath(env) == DedupPlan(env, [MarkedGroup(env, B)], [Away(env, MarkedGroup(env, B), File(env, 0, 2, A, A))])
  {
  }

  lemma OtherPathAccepted(env: Env)
    ensures Acceptable(OtherPath(env)) && Verified(env, OtherPath(env))
  {
    hide *;
    var g, s := MarkedGroup(env, B), File(env, 0, 2, A, A);
    var actions := [Away(env, g, s)];
    OtherPathIs(env);
    FileIs(env, 0, 2, A, A);
    FileIs(env, 0, 2, B, B);
    MarkedGroupIs(env, B);
    AwayBacked(env, [g], g, s, File(env, 0, 2, B, B));
    AwayIs(env, g, s);
    OneGroupPlain(env, g, actions);
    PlainVerified(env, [g], actions);
    PlainAcceptable(env, [g], actions);
  }

  lemma OtherPathLists(env: Env)
    ensures var d, k, m, s := OtherPath(env), File(env, 0, 1, A, A), File(env, 0, 2, B, B), File(env, 0, 2, A, A);
            && d.groups == [MarkedGroup(env, B)] && d.roots == ThreeRoots(env, QuarantineRole)
            && Listings(d) == {ListingOf(k), ListingOf(m)} && Taken(d.actions) == {PlaceOf(s)}
            && EntriesDisjoint(d.groups)
  {
    hide *;
    var d, g, s := OtherPath(env), MarkedGroup(env, B), File(env, 0, 2, A, A);
    OtherPathIs(env);
    FileIs(env, 0, 1, A, A);
    FileIs(env, 0, 2, B, B);
    MarkedGroupIs(env, B);
    PlainParts(env, [g], [Away(env, g, s)]);
    OneAway(env, g, s);
    OneGroupLists(d, g);
    OneMember(g, g.members[0]);
  }

  lemma OtherPathMisleads(env: Env)
    ensures var d := OtherPath(env);
            && Acceptable(d) && Verified(env, d) && |d.groups| == 1 && !FloorKept(d, 0)
            && EntriesDisjoint(d.groups) && KeptAlike(d.groups[0]) && KeptInSources(d, d.groups[0])
  {
    hide *;
    FileIs(env, 0, 1, A, A);
    FileIs(env, 0, 2, B, B);
    FileIs(env, 0, 2, A, A);
    HashesDiffer();
    MarkedGroupIs(env, B);
    OtherPathAccepted(env);
    OtherPathLists(env);
    RootsKept(env, OtherPath(env), MarkedGroup(env, B));
    OneCopyLoses(OtherPath(env), 0, Place(0, [A]));
  }

  // What one group keeps another may put aside.
  function SharedEntry(env: Env): Doc {
    DedupPlan(env, [MarkedGroup(env, A), KeptGroup(env)], [Away(env, MarkedGroup(env, A), File(env, 0, 2, A, A))])
  }

  function KeptGroup(env: Env): Group {
    Grouped(env, Exact, File(env, 0, 2, A, A), [], 1)
  }

  lemma KeptGroupIs(env: Env)
    ensures var g := KeptGroup(env);
            && GroupNormal(env, g) && InThree(g) && KeptAlike(g) && g.keeper == File(env, 0, 2, A, A) && g.members == []
            && g.floor.required == g.floor.remainingAfter == 1
  {
    FileIs(env, 0, 2, A, A);
    hide SourceNormal, Hash, PlaceOf, PartsOk, HashOk;
    GroupedIs(env, Exact, File(env, 0, 2, A, A), [], 1);
    hide Grouped, GroupNormal;
    assert RemainingRoots(KeptGroup(env)) == {0};
  }

  lemma SharedEntryIs(env: Env)
    ensures SharedEntry(env)
         == DedupPlan(env, [MarkedGroup(env, A), KeptGroup(env)], [Away(env, MarkedGroup(env, A), File(env, 0, 2, A, A))])
    ensures EntryLe(EntryKey(0, 1), EntryKey(0, 2)) && A != B
  {
  }

  lemma SharedEntryAccepted(env: Env)
    ensures Acceptable(SharedEntry(env)) && Verified(env, SharedEntry(env))
  {
    hide *;
    var g, h, s := MarkedGroup(env, A), KeptGroup(env), File(env, 0, 2, A, A);
    var actions := [Away(env, g, s)];
    SharedEntryIs(env);
    FileIs(env, 0, 2, A, A);
    FileIs(env, 0, 1, B, B);
    MarkedGroupIs(env, A);
    KeptGroupIs(env);
    AwayBacked(env, [g, h], g, s, s);
    AwayIs(env, g, s);
    TwoGroupsPlain(env, g, h, actions);
    PlainVerified(env, [g, h], actions);
    PlainAcceptable(env, [g, h], actions);
  }

  lemma SharedEntryLists(env: Env)
    ensures var d, k, s := SharedEntry(env), File(env, 0, 1, B, B), File(env, 0, 2, A, A);
            && d.groups == [MarkedGroup(env, A), KeptGroup(env)] && d.roots == ThreeRoots(env, QuarantineRole)
            && Listings(d) == {ListingOf(k), ListingOf(s)} && Named(d) == {k, s} && Taken(d.actions) == {PlaceOf(s)}
  {
    hide *;
    var d, g, h, s := SharedEntry(env), MarkedGroup(env, A), KeptGroup(env), File(env, 0, 2, A, A);
    SharedEntryIs(env);
    MarkedGroupIs(env, A);
    KeptGroupIs(env);
    PlainParts(env, [g, h], [Away(env, g, s)]);
    OneAway(env, g, s);
    TwoGroupsList(d, g, h);
    TwoGroupsName(d, g, h);
    OneMember(g, g.members[0]);
  }

  lemma SharedEntryMisleads(env: Env)
    ensures var d := SharedEntry(env);
            && Acceptable(d) && Verified(env, d) && |d.groups| == 2 && !FloorKept(d, 1)
            && OnePlaceEach(Named(d)) && KeptAlike(d.groups[1]) && KeptInSources(d, d.groups[1])
  {
    hide *;
    FileIs(env, 0, 1, B, B);
    FileIs(env, 0, 2, A, A);
    KeptGroupIs(env);
    SharedEntryAccepted(env);
    SharedEntryLists(env);
    RootsKept(env, SharedEntry(env), KeptGroup(env));
    HashesDiffer();
    PairFits(File(env, 0, 1, B, B), File(env, 0, 2, A, A));
    OneCopyLoses(SharedEntry(env), 1, Place(0, [A]));
  }

  // ----- organize plans

  // Two entries that share a path, each moved to a place of its own.
  function SharedPath(env: Env): Doc {
    OrganizePlan(env, [FirstMove(env), SecondMove(env)])
  }

  function OrganizePlan(env: Env, actions: seq<Action>): Doc {
    Doc(Organizing, ThreeRoots(env, DestinationRole), actions, [], [], SummaryOf(actions, [], []))
  }

  function MoveTo(env: Env, ordinal: nat, s: SourceRef, name: byte): Action {
    var op := Op.Move(DestPath(2, [ToHex([name])], env.lossy([name])), s, NoConflict);
    Action(ActionId(env, op), ordinal, op)
  }

  function FirstMove(env: Env): Action {
    MoveTo(env, 0, File(env, 0, 1, A, A), A)
  }

  function SecondMove(env: Env): Action {
    MoveTo(env, 1, File(env, 0, 2, A, A), B)
  }

  lemma MoveToIs(env: Env, ordinal: nat, s: SourceRef, name: byte)
    requires (name == A || name == B) && SourceNormal(env, s)
    ensures var a := MoveTo(env, ordinal, s, name);
            && ActionNormal(env, a, ordinal) && a.op.Move? && a.op.source == s && PartsOk(a.op.dest.parts)
            && Target(a.op) == Place(2, [name]) && Origin(a.op) == PlaceOf(s) && a.op.conflict == NoConflict
            && a.op.dest.root == 2
            && EntrantOf(a) == Some(Entrant(Label(2, [ToHex([name])]), RankKey(s), KeyOf(s)))
  {
    Letter(name);
    hide ActionId, Joined, PartsOk, SourceNormal, AllHex, ToHex;
  }

  // What the checks of both moves come to.
  lemma MovesAre(env: Env)
    ensures var a, b := FirstMove(env), SecondMove(env);
            && ActionNormal(env, a, 0) && ActionNormal(env, b, 1) && a.op.Move? && b.op.Move?
            && a.op.source == File(env, 0, 1, A, A) && b.op.source == File(env, 0, 2, A, A)
            && a.op.dest.root == b.op.dest.root == 2 && a.op.conflict == b.op.conflict == NoConflict
            && PartsOk(a.op.dest.parts) && PartsOk(b.op.dest.parts)
            && Target(a.op) == Place(2, [A]) && Target(b.op) == Place(2, [B])
            && Origin(a.op) == Origin(b.op) == Place(0, [A])
            && EntrantOf(a).Some? && EntrantOf(b).Some? && EntrantOf(a).value.wants == Label(2, [ToHex([A])])
            && EntrantOf(b).value.wants == Label(2, [ToHex([B])])
  {
    FileIs(env, 0, 1, A, A);
    FileIs(env, 0, 2, A, A);
    MoveToIs(env, 0, File(env, 0, 1, A, A), A);
    MoveToIs(env, 1, File(env, 0, 2, A, A), B);
    hide File, MoveTo, ActionNormal, SourceNormal, PartsOk, HashOk, EntrantOf, Target, Origin, Hash, ToHex, ListingOf, PlaceOf;
  }

  lemma MovesListed(env: Env)
    ensures Listed(FirstMove(env).op, SecondMove(env).op)
  {
  }

  lemma MovesNormal(env: Env)
    ensures ActionsNormal(env, [FirstMove(env), SecondMove(env)]) && ConflictsNormal([FirstMove(env), SecondMove(env)])
  {
    var actions := [FirstMove(env), SecondMove(env)];
    MovesAre(env);
    MovesListed(env);
    MovesNotRivals(env);
    CrowdOfTwo(actions, 0);
    CrowdOfTwo(actions, 1);
    hide FirstMove, SecondMove, ActionNormal, Listed, Rivals, Crowd, EntrantsOf, File, PartsOk, Target, Origin;
  }

  lemma MovesNotRivals(env: Env)
    ensures var actions := [FirstMove(env), SecondMove(env)];
            Contends(actions[0].op) && Contends(actions[1].op) && !Rivals(EntrantsOf(actions), 0, 1)
  {
    MovesAre(env);
    UnhexInvertsToHex([A]);
    UnhexInvertsToHex([B]);
    hide FirstMove, SecondMove, ActionNormal, EntrantOf, File, PartsOk, Target, Origin, ToHex, IsHex, Decode;
    assert [ToHex([A])][0] != [ToHex([B])][0];
  }

  lemma SharedPathIs(env: Env)
    ensures var d, a, b := SharedPath(env), FirstMove(env), SecondMove(env);
            && d.kind == Organizing && d.roots == ThreeRoots(env, DestinationRole) && d.actions == [a, b]
            && d.groups == [] && d.excluded == [] && d.summary == SummaryOf([a, b], [], [])
  {
  }

  lemma MoveKnown(env: Env, op: Op)
    requires op.dest.root == 2 && op.Move? && op.source.root == 0
    ensures OpKnown(ThreeRoots(env, DestinationRole), op) && ReadsFrom(ThreeRoots(env, DestinationRole), 0, Dir)
  {
    RootsAre(env, DestinationRole);
    assert ThreeRoots(env, DestinationRole)[0].source == Bound();
    hide HasRoot, RootsNormal, PathsDistinct, RootOk, FirstRoot, ThreeRoots, IsSource;
  }

  lemma MovesKnown(d: Doc, a: Action, b: Action)
    requires d.actions == [a, b] && d.groups == [] && d.excluded == [] && OpKnown(d.roots, a.op) && OpKnown(d.roots, b.op)
    ensures RefsKnown(d)
  {
    hide OpKnown;
  }

  lemma NoGroups(env: Env)
    ensures GroupsNormal(env, []) && ExcludedNormal(env, [])
  {
  }

  lemma MoveGrounded(d: Doc, op: Op)
    requires d.kind == Organizing && op.Move? && OpKnown(d.roots, op) && PartsOk(op.dest.parts) && PartsOk(op.source.parts)
    requires HashOk(op.source.hash) && ReadsFrom(d.roots, op.source.root, Dir)
    ensures ActionOk(d, op)
  {
    hide OpKnown, PartsOk, HashOk, ReadsFrom;
  }

  lemma TwoMovesAccepted(d: Doc, a: Action, b: Action)
    requires PathsDistinct(d.roots) && (forall i :: 0 <= i < |d.roots| ==> RootOk(d.roots[i]))
    requires d.kind == Organizing && d.groups == [] && d.actions == [a, b] && ActionOk(d, a.op) && ActionOk(d, b.op)
    requires a.op.Move? && b.op.Move? && KeyOf(a.op.source) != KeyOf(b.op.source) && Target(a.op) != Target(b.op)
    requires {Target(a.op), Target(b.op)} !! {Origin(a.op), Origin(b.op)}
    ensures Acceptable(d)
  {
    hide ActionOk, PathsDistinct, RootOk, Joined, KeyOf;
    assert d.actions[0] == a && d.actions[1] == b;
  }

  lemma PathsApart()
    ensures Place(2, [A]) != Place(2, [B])
    ensures {Place(2, [A]), Place(2, [B])} !! {Place(0, [A]), Place(0, [A])}
  {
    assert [A][0] != [B][0];
  }

  lemma PartsNormal(env: Env, d: Doc)
    requires RootsNormal(env, d.roots) && RefsKnown(d) && ActionsNormal(env, d.actions) && ConflictsNormal(d.actions)
    requires GroupsNormal(env, d.groups) && ExcludedNormal(env, d.excluded)
    requires d.summary == SummaryOf(d.actions, d.groups, d.excluded)
    ensures Normal(env, d)
  {
    hide RootsNormal, RefsKnown, ActionsNormal, ConflictsNormal, GroupsNormal, ExcludedNormal, SummaryOf;
  }

  lemma SharedPathAccepted(env: Env)
    ensures Acceptable(SharedPath(env)) && Verified(env, SharedPath(env))
  {
    hide *;
    var d, a, b := SharedPath(env), FirstMove(env), SecondMove(env);
    SharedPathIs(env);
    MovesAre(env);
    MovesNormal(env);
    FileIs(env, 0, 1, A, A);
    FileIs(env, 0, 2, A, A);
    RootsAre(env, DestinationRole);
    ThreeAre(env, DestinationRole);
    MoveKnown(env, a.op);
    MoveKnown(env, b.op);
    MovesKnown(d, a, b);
    NoGroups(env);
    PartsNormal(env, d);
    NormalIsVerified(env, d);
    MoveGrounded(d, a.op);
    MoveGrounded(d, b.op);
    PathsApart();
    TwoMovesAccepted(d, a, b);
  }

  lemma StepsOfTwo(a: Action, b: Action)
    requires a.op.Move? && b.op.Move?
    ensures MoveSteps([a, b]) == [Step(Origin(a.op), Target(a.op)), Step(Origin(b.op), Target(b.op))]
    ensures Origins(MoveSteps([a, b])) == {Origin(a.op), Origin(b.op)}
    ensures Targets(MoveSteps([a, b])) == {Target(a.op), Target(b.op)}
    ensures OriginsDistinct([a, b]) <==> Origin(a.op) != Origin(b.op)
  {
    hide Joined;
    assert [a, b][..1] == [a] && [a][..0] == [];
    assert MoveSteps([a]) == [Step(Origin(a.op), Target(a.op))];
    var steps := MoveSteps([a, b]);
    assert steps == [Step(Origin(a.op), Target(a.op)), Step(Origin(b.op), Target(b.op))];
    assert forall s :: s in steps <==> s == steps[0] || s == steps[1];
    assert [a, b][0] == a && [a, b][1] == b;
  }

  // The one file they share is there and both places are free, and no order of the two moves
  // can be carried out.
  lemma SharedPathStuck(env: Env, order: seq<Step>)
    requires multiset(order) == multiset(MoveSteps(SharedPath(env).actions))
    ensures var d, fs := SharedPath(env), map[Place(0, [A]) := Hash(A)];
            Acceptable(d) && Verified(env, d) && Ready(fs, MoveSteps(d.actions)) && Run(fs, order) == None
  {
    var d, a, b := SharedPath(env), FirstMove(env), SecondMove(env);
    var fs := map[Place(0, [A]) := Hash(A)];
    SharedPathAccepted(env);
    SharedPathIs(env);
    MovesAre(env);
    StepsOfTwo(a, b);
    PathsApart();
    hide SharedPath, FirstMove, SecondMove, Acceptable, Verified, MoveSteps, Target, Origin, Hash, Joined, ActionNormal;
    hide OriginsDistinct, EntrantOf, PartsOk, File, ThreeRoots, Run, Origins, Targets;
    CarriedOutExactly(d, fs, order);
  }
}
