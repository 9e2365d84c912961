/**
 What the floor of a dedup group is worth (src/core/plan.rs): the rules check a count of roots
 derived from the group, and the promise is that the keeper's content survives the
 quarantines in that many source roots.
 */
module Quarantining {
  import opened Basics
  import opened Order
  import opened Hex
  import opened Contest
  import opened PlanDoc
  import opened PlanStable
  import opened PlanOrderFree
  import opened PlanRules
  import opened Execute

  // ----- the promise

  // A file as a plan lists it: where it is, and the content it is said to have.
  datatype Listing = Listing(place: Place, hash: Text)

  function PlaceOf(s: SourceRef): Place {
    Place(s.root, Joined(s.parts))
  }

  function ListingOf(s: SourceRef): Listing {
    Listing(PlaceOf(s), s.hash)
  }

  // All a plan lists, in its groups and among what it leaves alone.
  function Listings(d: Doc): set<Listing> {
    (set g | g in d.groups :: ListingOf(g.keeper))
    + (set g, m | g in d.groups && m in g.members :: ListingOf(m.entry))
    + (set e | e in d.excluded && e.hash.Some? :: Listing(Place(e.root, Joined(e.parts)), e.hash.value))
  }

  function CopiesListed(d: Doc, content: Text): set<Place> {
    set l | l in Listings(d) && l.hash == content :: l.place
  }

  // The places the quarantines empty.
  function Taken(actions: seq<Action>): set<Place> {
    set a | a in actions && a.op.Quarantine? :: Origin(a.op)
  }

  predicate IsSource(roots: seq<Root>, id: nat) {
    exists r :: r in roots && r.rootId == id && r.role == SourceRole
  }

  function SourceRootsWith(d: Doc, fs: Files, content: Text): set<nat> {
    set p | p in fs && fs[p] == content && IsSource(d.roots, p.root) :: p.root
  }

  // Every copy the plan lists of the content is there.
  ghost predicate AsListed(d: Doc, fs: Files, content: Text) {
    forall p :: p in CopiesListed(d, content) ==> p in fs && fs[p] == content
  }

  // The floor's promise: whatever else there is, once the quarantines have emptied their
  // places the keeper's content is still in as many source roots as required.
  ghost predicate FloorKept(d: Doc, g: nat)
    requires g < |d.groups|
  {
    var content := d.groups[g].keeper.hash;
    forall fs: Files :: AsListed(d, fs, content) ==>
      |SourceRootsWith(d, fs - Taken(d.actions), content)| >= d.groups[g].floor.required
  }

  // ----- carrying out a dedup plan empties those places

  lemma OnlyQuarantines(d: Doc)
    requires Acceptable(d) && d.kind == Deduping
    ensures forall i :: 0 <= i < |d.actions| && Relocates(d.actions[i].op) ==> d.actions[i].op.Quarantine?
  {
    assert forall i :: 0 <= i < |d.actions| ==> KindOk(d.kind, d.actions[i].op);
    hide OpKnown, PartsOk, HashOk, Backed, Apart, PathsDistinct, RootOk;
  }

  lemma StepsTake(d: Doc)
    requires Acceptable(d) && d.kind == Deduping
    ensures Origins(MoveSteps(d.actions)) == Taken(d.actions)
  {
    hide Joined, MoveSteps, Acceptable, Origin, Target;
    var steps := MoveSteps(d.actions);
    StepsAre(d.actions);
    OnlyQuarantines(d);
    forall p | p in Taken(d.actions) ensures p in Origins(steps) {
      var a :| a in d.actions && a.op.Quarantine? && Origin(a.op) == p;
      var i :| 0 <= i < |d.actions| && d.actions[i] == a;
      assert Step(Origin(a.op), Target(a.op)) in steps;
    }
    forall p | p in Origins(steps) ensures p in Taken(d.actions) {
      var s :| s in steps && s.origin == p;
      var i :| 0 <= i < |d.actions| && Relocates(d.actions[i].op) && s == Step(Origin(d.actions[i].op), Target(d.actions[i].op));
      assert d.actions[i] in d.actions;
    }
  }

  // After any successful run the files outside the quarantine slots are those that were not taken.
  lemma QuarantinesTake(d: Doc, fs: Files, order: seq<Step>)
    requires Acceptable(d) && d.kind == Deduping
    requires multiset(order) == multiset(MoveSteps(d.actions)) && Ready(fs, MoveSteps(d.actions))
    requires Run(fs, order).Some?
    ensures Run(fs, order).value - Targets(MoveSteps(d.actions)) == fs - Taken(d.actions)
  {
    hide Acceptable, MoveSteps, Taken, Origins, Targets;
    CarriedOutExactly(d, fs, order);
    InAnyOrder(d, fs, order);
    StepsTake(d);
  }

  // ----- exactly when the promise holds

  // Source roots with a listed copy of the content that no quarantine empties.
  function SafeRoots(d: Doc, content: Text): set<nat> {
    set p | p in CopiesListed(d, content) && p !in Taken(d.actions) && IsSource(d.roots, p.root) :: p.root
  }

  lemma KeptAtSafeRoots(d: Doc, g: nat)
    requires g < |d.groups|
    ensures FloorKept(d, g) <==> |SafeRoots(d, d.groups[g].keeper.hash)| >= d.groups[g].floor.required
  {
    var content, required := d.groups[g].keeper.hash, d.groups[g].floor.required;
    var safe, taken := SafeRoots(d, content), Taken(d.actions);
    hide CopiesListed, Taken, IsSource;
    if FloorKept(d, g) {
      var least: Files := map p | p in CopiesListed(d, content) :: content;
      assert AsListed(d, least, content);
      assert SourceRootsWith(d, least - taken, content) == safe;
    }
    if |safe| >= required {
      forall fs: Files | AsListed(d, fs, content) ensures |SourceRootsWith(d, fs - taken, content)| >= required {
        forall r | r in safe ensures r in SourceRootsWith(d, fs - taken, content) {
          var p :| p in CopiesListed(d, content) && p !in taken && IsSource(d.roots, p.root) && p.root == r;
          assert p in fs - taken;
        }
        SubsetSize(safe, SourceRootsWith(d, fs - taken, content));
      }
    }
  }

  // Counted by the rules, though it is no source root or every copy listed in it is taken.
  function Overcounted(d: Doc, g: nat): set<nat>
    requires g < |d.groups|
  {
    RemainingRoots(d.groups[g]) - SafeRoots(d, d.groups[g].keeper.hash)
  }

  // Not counted, though it keeps a listed copy.
  function Uncounted(d: Doc, g: nat): set<nat>
    requires g < |d.groups|
  {
    SafeRoots(d, d.groups[g].keeper.hash) - RemainingRoots(d.groups[g])
  }

  // In an accepted, verified plan the promise holds exactly when the roots wrongly counted are
  // no more than the count has to spare, together with the roots it missed.
  lemma FloorExactly(env: Env, d: Doc, g: nat)
    requires Acceptable(d) && Verified(env, d) && g < |d.groups|
    ensures var floor := d.groups[g].floor;
            FloorKept(d, g) <==> |Overcounted(d, g)| <= floor.remainingAfter - floor.required + |Uncounted(d, g)|
  {
    assert d.groups[g].floor.remainingAfter >= d.groups[g].floor.required;
    hide Acceptable, Verified, FloorKept, RemainingRoots, SafeRoots;
    RemainingIsCounted(env, d, g);
    KeptAtSafeRoots(d, g);
    SizesSplit(RemainingRoots(d.groups[g]), SafeRoots(d, d.groups[g].keeper.hash));
  }

  lemma SizesSplit(a: set<nat>, b: set<nat>)
    ensures |a| - |a - b| == |b| - |b - a|
  {
    assert a == (a - b) + a * b && b == (b - a) + a * b;
    assert |a| == |a - b| + |a * b| && |b| == |b - a| + |a * b|;
  }

  // ----- what keeps the count right

  // An entry belongs to one group and once to it, as keeper or as member.
  ghost predicate EntriesDisjoint(groups: seq<Group>) {
    && (forall g :: 0 <= g < |groups| ==> GroupEntriesDistinct(groups[g]))
    && (forall g, h :: 0 <= g < h < |groups| ==> EntriesOf(groups[g]) !! EntriesOf(groups[h]))
  }

  ghost predicate GroupEntriesDistinct(g: Group) {
    && (forall m :: 0 <= m < |g.members| ==> KeyOf(g.members[m].entry) != KeyOf(g.keeper))
    && (forall m, n :: 0 <= m < n < |g.members| ==> KeyOf(g.members[m].entry) != KeyOf(g.members[n].entry))
  }

  function EntriesOf(g: Group): set<EntryKey> {
    {KeyOf(g.keeper)} + set m | m in g.members :: KeyOf(m.entry)
  }

  // What the quarantines of a plan take away.
  function Quarantines(actions: seq<Action>): set<EntryKey> {
    set a | a in actions && a.op.Quarantine? :: KeyOf(a.op.source)
  }

  function RootsOf(entries: set<EntryKey>): set<nat> {
    set e | e in entries :: e.root
  }

  lemma {:induction false} FirstGroupIs(groups: seq<Group>, groupId: Text)
    requires FirstGroup(groups, groupId).Some?
    ensures FirstGroup(groups, groupId).value in groups
  {
    if groups[0].groupId != groupId { FirstGroupIs(groups[1..], groupId); }
  }

  lemma {:induction false} FirstMemberIs(members: seq<GroupMember>, key: EntryKey)
    requires FirstMember(members, key).Some?
    ensures FirstMember(members, key).value in members && KeyOf(FirstMember(members, key).value.entry) == key
  {
    if KeyOf(members[0].entry) != key { FirstMemberIs(members[1..], key); }
  }

  ghost predicate Marked(g: Group, m: int, key: EntryKey)
    requires 0 <= m < |g.members|
  {
    KeyOf(g.members[m].entry) == key && g.members[m].disposition == Quarantined
  }

  // A quarantined entry is a member of some group, marked for quarantine.
  lemma QuarantinedIsMarked(d: Doc, key: EntryKey)
    requires Acceptable(d)
    ensures key in Quarantines(d.actions) ==>
              exists g, m :: 0 <= g < |d.groups| && 0 <= m < |d.groups[g].members| && Marked(d.groups[g], m, key)
  {
    if a :| a in d.actions && a.op.Quarantine? && KeyOf(a.op.source) == key {
      var i :| 0 <= i < |d.actions| && d.actions[i] == a;
      assert ActionOk(d, a.op);
      hide Acceptable;
      var g := FirstGroup(d.groups, a.op.groupId).value;
      FirstGroupIs(d.groups, a.op.groupId);
      FirstMemberIs(g.members, key);
      var m := FirstMember(g.members, key).value;
      var x :| 0 <= x < |d.groups| && d.groups[x] == g;
      var y :| 0 <= y < |g.members| && g.members[y] == m;
      assert Marked(d.groups[x], y, key);
    }
  }

  ghost predicate Kept(g: Group, key: EntryKey) {
    key == KeyOf(g.keeper)
    || exists m :: 0 <= m < |g.members| && KeyOf(g.members[m].entry) == key && g.members[m].disposition != Quarantined
  }

  // What a group means to keep is never quarantined.
  lemma KeptStays(d: Doc, g: nat, key: EntryKey)
    requires Acceptable(d) && EntriesDisjoint(d.groups) && g < |d.groups| && Kept(d.groups[g], key)
    ensures key !in Quarantines(d.actions)
  {
    QuarantinedIsMarked(d, key);
    hide Acceptable, Quarantines;
    assert key in EntriesOf(d.groups[g]);
    forall h, n | 0 <= h < |d.groups| && 0 <= n < |d.groups[h].members| ensures !Marked(d.groups[h], n, key) {
      assert d.groups[h].members[n] in d.groups[h].members;
      if h == g {
        assert GroupEntriesDistinct(d.groups[g]);
      } else {
        assert EntriesOf(d.groups[g]) !! EntriesOf(d.groups[h]);
        assert KeyOf(d.groups[h].members[n].entry) in EntriesOf(d.groups[h]);
      }
    }
  }

  lemma RootsStay(d: Doc, g: nat)
    requires Acceptable(d) && EntriesDisjoint(d.groups) && g < |d.groups|
    ensures RemainingRoots(d.groups[g]) <= RootsOf(EntriesOf(d.groups[g]) - Quarantines(d.actions))
  {
    var group := d.groups[g];
    var left := EntriesOf(group) - Quarantines(d.actions);
    hide Acceptable, EntriesDisjoint, Quarantines;
    forall r | r in RemainingRoots(group) ensures r in RootsOf(left) {
      if r == group.keeper.root {
        KeptStays(d, g, KeyOf(group.keeper));
        assert KeyOf(group.keeper) in left;
      } else {
        var m :| m in group.members && m.disposition != Quarantined && m.entry.root == r;
        var i :| 0 <= i < |group.members| && group.members[i] == m;
        KeptStays(d, g, KeyOf(m.entry));
        assert KeyOf(m.entry) in left;
      }
    }
  }

  // After the quarantines of an accepted, verified dedup plan every group still has entries in
  // as many roots as its floor requires.
  lemma EntriesSurvive(env: Env, d: Doc, g: nat)
    requires Acceptable(d) && Verified(env, d) && EntriesDisjoint(d.groups) && g < |d.groups|
    ensures |RootsOf(EntriesOf(d.groups[g]) - Quarantines(d.actions))| >= d.groups[g].floor.required
  {
    assert d.groups[g].floor.remainingAfter >= d.groups[g].floor.required;
    hide Acceptable, Verified, EntriesDisjoint, Quarantines, RootsOf, RemainingRoots, EntriesOf;
    RemainingIsCounted(env, d, g);
    RootsStay(d, g);
    SubsetSize(RemainingRoots(d.groups[g]), RootsOf(EntriesOf(d.groups[g]) - Quarantines(d.actions)));
  }

  lemma RemainingIsCounted(env: Env, d: Doc, g: nat)
    requires Verified(env, d) && g < |d.groups|
    ensures d.groups[g].floor.remainingAfter == |RemainingRoots(d.groups[g])|
  {
    VerifiedIs(env, d);
    CanonicalIs(env, d);
    hide Verified, Canonical, ArrangedAll, SortBy, StampGroup, RemainingRoots;
    var was := SortBy(ArrangedAll(env, d), KeeperKey)[g];
    assert d.groups[g] == StampGroup(env)(was);
    StampCounts(env, was);
  }

  lemma StampCounts(env: Env, g: Group)
    ensures StampGroup(env)(g).floor.remainingAfter == |RemainingRoots(StampGroup(env)(g))|
  {
    hide GroupId;
    assert RemainingRoots(StampGroup(env)(g)) == RemainingRoots(g);
  }

  function Sources(actions: seq<Action>): set<SourceRef> {
    set a | a in actions && a.op.Quarantine? :: a.op.source
  }

  // Every file the plan names in its groups and quarantines.
  function Named(d: Doc): set<SourceRef> {
    (set g | g in d.groups :: g.keeper) + (set g, m | g in d.groups && m in g.members :: m.entry) + Sources(d.actions)
  }

  // One entry, one place.
  ghost predicate OnePlaceEach(files: set<SourceRef>) {
    forall s, t :: s in files && t in files ==> (KeyOf(s) == KeyOf(t) <==> PlaceOf(s) == PlaceOf(t))
  }

  // What is kept has the keeper's content, and is in a source.
  ghost predicate KeptAlike(g: Group) {
    forall m :: m in g.members && m.disposition != Quarantined ==> m.entry.hash == g.keeper.hash
  }

  ghost predicate KeptInSources(d: Doc, g: Group) {
    IsSource(d.roots, g.keeper.root) && forall m :: m in g.members && m.disposition != Quarantined ==> IsSource(d.roots, m.entry.root)
  }

  lemma KeptIsSafe(d: Doc, g: nat, s: SourceRef)
    requires Acceptable(d) && EntriesDisjoint(d.groups) && OnePlaceEach(Named(d)) && g < |d.groups|
    requires s in Named(d) && Kept(d.groups[g], KeyOf(s)) && IsSource(d.roots, s.root) && ListingOf(s) in Listings(d)
    ensures s.root in SafeRoots(d, s.hash)
  {
    KeptStays(d, g, KeyOf(s));
    hide Acceptable, EntriesDisjoint, Kept, Listings, IsSource;
    forall a | a in d.actions && a.op.Quarantine? ensures Origin(a.op) != PlaceOf(s) {
      assert a.op.source in Named(d);
      assert KeyOf(a.op.source) in Quarantines(d.actions);
      assert Origin(a.op) == PlaceOf(a.op.source);
    }
    hide Named, OnePlaceEach;
    assert PlaceOf(s) !in Taken(d.actions);
    assert ListingOf(s).place == PlaceOf(s);
  }

  lemma CountedAreSafe(d: Doc, g: nat)
    requires Acceptable(d) && EntriesDisjoint(d.groups) && OnePlaceEach(Named(d)) && g < |d.groups|
    requires KeptAlike(d.groups[g]) && KeptInSources(d, d.groups[g])
    ensures Overcounted(d, g) == {}
  {
    var group := d.groups[g];
    hide Acceptable, EntriesDisjoint, OnePlaceEach, SafeRoots, IsSource;
    assert group in d.groups;
    forall r | r in RemainingRoots(group) ensures r in SafeRoots(d, group.keeper.hash) {
      if r == group.keeper.root {
        KeptIsSafe(d, g, group.keeper);
      } else {
        var m :| m in group.members && m.disposition != Quarantined && m.entry.root == r;
        var i :| 0 <= i < |group.members| && group.members[i] == m;
        KeptIsSafe(d, g, m.entry);
      }
    }
  }

  // The promise holds where entries are in one group each and at one place each, and what is
  // kept has the keeper's content and is in a source. The rules check none of the four.
  lemma FloorSurvives(env: Env, d: Doc, g: nat)
    requires Acceptable(d) && Verified(env, d) && g < |d.groups|
    requires EntriesDisjoint(d.groups) && OnePlaceEach(Named(d)) && KeptAlike(d.groups[g]) && KeptInSources(d, d.groups[g])
    ensures FloorKept(d, g)
  {
    assert d.groups[g].floor.remainingAfter >= d.groups[g].floor.required;
    hide Acceptable, Verified, EntriesDisjoint, OnePlaceEach, FloorKept;
    CountedAreSafe(d, g);
    FloorExactly(env, d, g);
  }
}
