/**
 What a verified plan looks like (src/core/plan.rs): the normal form stated item by item,
 without any pass, and the load-time check accepts exactly the documents in it.
 */
module PlanNormal {
  import opened Basics
  import opened Order
  import opened Hex
  import opened Permute
  import opened Contest
  import opened PlanDoc
  import opened PlanStable
  import opened PlanOrderFree

  // By role, then by path bytes; numbered from 0.
  ghost predicate RootsNormal(env: Env, roots: seq<Root>) {
    && (forall i :: 0 <= i < |roots| ==>
          roots[i].rootId == i && IsHex(roots[i].pathRaw) && roots[i].pathDisplay == env.lossy(Decode(roots[i].pathRaw)))
    && (forall i, j :: 0 <= i < j < |roots| ==>
          RoleBefore(roots[i].role, roots[j].role)
          || (roots[i].role == roots[j].role && LexLe(Bytes(roots[i].pathRaw), Bytes(roots[j].pathRaw))))
  }

  // Sources, then destinations, then quarantines.
  predicate RoleBefore(a: RootRole, b: RootRole) {
    (a == SourceRole && b != SourceRole) || (a == DestinationRole && b == QuarantineRole)
  }

  ghost predicate SourceNormal(env: Env, s: SourceRef) {
    AllHex(s.parts) && s.display == Shown(env, s.parts)
  }

  ghost predicate ActionNormal(env: Env, a: Action, ordinal: nat) {
    && a.ordinal == ordinal && a.actionId == ActionId(env, a.op)
    && AllHex(a.op.dest.parts) && a.op.dest.display == Shown(env, a.op.dest.parts)
    && (!a.op.Mkdir? ==> SourceNormal(env, a.op.source))
    && (a.op.Quarantine? ==> a.op.slot == Slot(env, a.op.groupId, a.op.source))
  }

  // What a non-directory action is listed by within its source root.
  function ListedPath(op: Op): seq<byte>
    requires !op.Mkdir?
  {
    match op
    case Move(_, s, _) => Joined(s.parts)
    case Extract(_, _, _) => []
    case Quarantine(_, s, g, _) => g + Joined(s.parts)
  }

  // Directories first, by place; then by source root, listed path and entry.
  ghost predicate Listed(a: Op, b: Op) {
    if a.Mkdir? then
      !b.Mkdir? || a.dest.root < b.dest.root
      || (a.dest.root == b.dest.root && LexLe(Joined(a.dest.parts), Joined(b.dest.parts)))
    else
      !b.Mkdir?
      && (a.source.root < b.source.root
          || (a.source.root == b.source.root
              && (if ListedPath(a) == ListedPath(b) then a.source.file <= b.source.file
                  else LexLe(ListedPath(a), ListedPath(b)))))
  }

  ghost predicate ActionsNormal(env: Env, actions: seq<Action>) {
    && (forall i :: 0 <= i < |actions| ==> ActionNormal(env, actions[i], i))
    && (forall i, j :: 0 <= i < j < |actions| ==> Listed(actions[i].op, actions[j].op))
  }

  // Two actions that want one name in one place.
  ghost predicate SameTarget(a: Op, b: Op) {
    Contends(a) && Contends(b) && a.dest.root == b.dest.root
    && Base(a.dest.parts, a.conflict) == Base(b.dest.parts, b.conflict)
  }

  // By source root, then by the bytes of the path, then by file id.
  ghost predicate RanksBefore(s: SourceRef, t: SourceRef) {
    || s.root < t.root
    || (s.root == t.root && Joined(s.parts) != Joined(t.parts) && LexLe(Joined(s.parts), Joined(t.parts)))
    || (s.root == t.root && Joined(s.parts) == Joined(t.parts) && s.file < t.file)
  }

  // The rivals that come before action i; the list decides between equal sources.
  ghost function Before(actions: seq<Action>, i: nat): set<nat>
    requires i < |actions| && Contends(actions[i].op)
  {
    set j: nat | j < |actions| && j != i && SameTarget(actions[j].op, actions[i].op)
                 && (RanksBefore(actions[j].op.source, actions[i].op.source)
                     || (!RanksBefore(actions[i].op.source, actions[j].op.source) && j < i))
  }

  // Alone on its base an action carries no note; otherwise its ordinal is the number of rivals
  // that come before it, and its name the base with that suffix, the first keeping the base.
  ghost predicate ConflictNormal(actions: seq<Action>, i: nat)
    requires i < |actions| && Contends(actions[i].op)
  {
    var op := actions[i].op;
    var base := Base(op.dest.parts, op.conflict);
    if forall j :: 0 <= j < |actions| && j != i ==> !SameTarget(actions[j].op, op) then op.conflict == NoConflict
    else
      && Suffixable(base) && op.conflict == SuffixOrdinal(|Before(actions, i)|, Competing(EntrantsOf(actions), i))
      && BaseOk(op.dest.parts, op.conflict) && op.dest.parts == NameAt(base, |Before(actions, i)|)
  }

  ghost predicate ConflictsNormal(actions: seq<Action>) {
    forall i :: 0 <= i < |actions| && Contends(actions[i].op) ==> ConflictNormal(actions, i)
  }

  predicate EntryLe(a: EntryKey, b: EntryKey) {
    a.root < b.root || (a.root == b.root && a.file <= b.file)
  }

  ghost predicate GroupNormal(env: Env, g: Group) {
    && SourceNormal(env, g.keeper) && (forall k :: 0 <= k < |g.members| ==> SourceNormal(env, g.members[k].entry))
    && (forall j, k :: 0 <= j < k < |g.members| ==> EntryLe(KeyOf(g.members[j].entry), KeyOf(g.members[k].entry)))
    && g.groupId == GroupId(env, g)
    && g.floor.remainingAfter == |{g.keeper.root} + set m | m in g.members && m.disposition != Quarantined :: m.entry.root|
  }

  ghost predicate GroupsNormal(env: Env, groups: seq<Group>) {
    && (forall i :: 0 <= i < |groups| ==> GroupNormal(env, groups[i]))
    && (forall i, j :: 0 <= i < j < |groups| ==> EntryLe(KeyOf(groups[i].keeper), KeyOf(groups[j].keeper)))
  }

  ghost predicate ExcludedNormal(env: Env, excluded: seq<Excluded>) {
    && (forall i :: 0 <= i < |excluded| ==> AllHex(excluded[i].parts) && excluded[i].display == Shown(env, excluded[i].parts))
    && (forall i, j :: 0 <= i < j < |excluded| ==>
          EntryLe(EntryKey(excluded[i].root, excluded[i].file), EntryKey(excluded[j].root, excluded[j].file)))
  }

  ghost predicate Normal(env: Env, d: Doc) {
    && RootsNormal(env, d.roots) && RefsKnown(d)
    && ActionsNormal(env, d.actions) && ConflictsNormal(d.actions)
    && GroupsNormal(env, d.groups) && ExcludedNormal(env, d.excluded)
    && d.summary == SummaryOf(d.actions, d.groups, d.excluded)
  }

  // ----- sorted by key is listed in order

  lemma RootsInOrder(roots: seq<Root>)
    ensures SortedBy(roots, RootKey) <==> forall i, j :: 0 <= i < j < |roots| ==>
              RoleBefore(roots[i].role, roots[j].role)
              || (roots[i].role == roots[j].role && LexLe(Bytes(roots[i].pathRaw), Bytes(roots[j].pathRaw)))
  {
    hide Bytes, LexLe;
    forall i, j | 0 <= i < j < |roots|
      ensures KeyLe(RootKey(roots[i]), RootKey(roots[j])) <==>
        (RoleBefore(roots[i].role, roots[j].role)
         || (roots[i].role == roots[j].role && LexLe(Bytes(roots[i].pathRaw), Bytes(roots[j].pathRaw))))
    {
      LexTotal(Bytes(roots[i].pathRaw), Bytes(roots[i].pathRaw));
    }
    hide KeyLe, RootKey;
  }

  lemma ActionsInOrder(actions: seq<Action>)
    ensures SortedBy(actions, ActionKey) <==>
              forall i, j :: 0 <= i < j < |actions| ==> Listed(actions[i].op, actions[j].op)
  {
    forall i, j | 0 <= i < j < |actions|
      ensures KeyLe(ActionKey(actions[i]), ActionKey(actions[j])) <==> Listed(actions[i].op, actions[j].op)
    {
      KeyIsListing(actions[i], actions[j]);
    }
    hide KeyLe, ActionKey, Listed;
  }

  lemma KeyIsListing(a: Action, b: Action)
    ensures KeyLe(ActionKey(a), ActionKey(b)) <==> Listed(a.op, b.op)
  {
    hide Joined, LexLe;
    if a.op.Mkdir? { LexTotal(Joined(a.op.dest.parts), Joined(a.op.dest.parts)); }
  }

  // ----- a pass that changes nothing

  lemma RootsFit(env: Env, roots: seq<Root>)
    ensures RootsNormal(env, roots) <==> RootsHex(roots) && Renumbered(env, SortedRoots(roots)) == roots
  {
    RootsInOrder(roots);
    var ordered := SortedRoots(roots);
    SortBySorted(roots, RootKey);
    if SortedBy(roots, RootKey) { SortByOfSorted(roots, RootKey); }
    hide SortedRoots, KeyLe;
    if Renumbered(env, ordered) == roots {
      forall i | 0 <= i < |roots|
        ensures RootKey(roots[i]) == RootKey(ordered[i]) && roots[i].rootId == i
        ensures roots[i].pathDisplay == env.lossy(Bytes(roots[i].pathRaw))
      {
        assert roots[i] == Renumbered(env, ordered)[i];
      }
      hide RootKey, Bytes;
      assert SortedBy(roots, RootKey);
    }
    if RootsNormal(env, roots) {
      assert SortedBy(roots, RootKey);
      assert ordered == roots;
    }
  }

  lemma RootsFixed(env: Env, d: Doc)
    requires RefsKnown(d)
    ensures RootsNormal(env, d.roots) <==> RootsOk(d) && RootPass(env, d) == d
  {
    RootsFit(env, d.roots);
    if RootsNormal(env, d.roots) {
      RootsFollow(env, d);
    }
    hide RootsNormal, RefsKnown, SortedRoots, Renumbered;
  }

  lemma RootsFollow(env: Env, d: Doc)
    requires RootsNormal(env, d.roots)
    ensures IdsDistinct(d.roots) && RootPass(env, d) == d
  {
    RootsFit(env, d.roots);
    RootPassStays(env, d, d.(roots := Renumbered(env, SortedRoots(d.roots))));
    hide SortedRoots, Renumbered;
  }

  lemma RankKeyReads(s: SourceRef, t: SourceRef)
    ensures KeyLt(RankKey(s), RankKey(t)) <==> RanksBefore(s, t)
    ensures RankKey(s) == RankKey(t) <==> !RanksBefore(s, t) && !RanksBefore(t, s)
  {
    LexTotal(Joined(s.parts), Joined(t.parts));
    if LexLe(Joined(s.parts), Joined(t.parts)) && LexLe(Joined(t.parts), Joined(s.parts)) {
      LexAntisymmetric(Joined(s.parts), Joined(t.parts));
    }
    hide Joined, LexLe;
  }

  lemma RivalsRead(actions: seq<Action>, i: nat, j: nat)
    requires i < |actions| && j < |actions|
    ensures Rivals(EntrantsOf(actions), i, j) <==> SameTarget(actions[i].op, actions[j].op)
    ensures Rivals(EntrantsOf(actions), i, j) ==>
              (Ahead(EntrantsOf(actions), i, j) <==>
                 RanksBefore(actions[i].op.source, actions[j].op.source)
                 || (!RanksBefore(actions[j].op.source, actions[i].op.source) && i < j))
  {
    if Contends(actions[i].op) && Contends(actions[j].op) {
      RankKeyReads(actions[i].op.source, actions[j].op.source);
    }
    hide RankKey, RanksBefore, Base, KeyLe;
  }

  lemma RankReads(actions: seq<Action>, i: nat)
    requires i < |actions| && Contends(actions[i].op)
    ensures Rank(EntrantsOf(actions), i) == |Before(actions, i)|
    ensures |Crowd(EntrantsOf(actions), i)| == 1 <==> forall j :: 0 <= j < |actions| && j != i ==> !SameTarget(actions[j].op, actions[i].op)
  {
    var es := EntrantsOf(actions);
    assert es[i].Some?;
    hide EntrantOf, SameTarget, Ahead, Crowd;
    forall j: nat | j < |actions|
      ensures Rivals(es, j, i) <==> SameTarget(actions[j].op, actions[i].op)
      ensures j in RivalsAhead(es, i) <==> j in Before(actions, i)
    {
      RivalsRead(actions, j, i);
      RivalsRead(actions, i, i);
    }
    assert RivalsAhead(es, i) == Before(actions, i);
    AloneReads(es, i);
  }

  lemma AloneReads(es: Entrants, i: nat)
    requires i < |es| && es[i].Some?
    ensures |Crowd(es, i)| == 1 <==> forall j: nat :: j < |es| && j != i ==> !Rivals(es, j, i)
  {
    CrowdIs(es, i);
    hide Crowd;
    var crowd := Crowd(es, i);
    assert i in crowd;
    if |crowd| == 1 {
      assert forall j :: j in crowd ==> j == crowd[0];
    } else {
      assert crowd[0] in crowd && crowd[1] in crowd && crowd[0] != crowd[1];
    }
  }

  lemma SettledStays(actions: seq<Action>, i: nat)
    requires i < |actions| && Contends(actions[i].op)
    ensures var op, es := actions[i].op, EntrantsOf(actions);
            Settled(actions, i) == actions[i] <==>
              if |Crowd(es, i)| == 1 then op.conflict == NoConflict
              else op.dest.parts == NameAt(Base(op.dest.parts, op.conflict), Rank(es, i))
                   && op.conflict == SuffixOrdinal(Rank(es, i), Competing(es, i))
  {
    hide Crowd, Rank, Competing, Base, NameAt;
  }

  lemma ConflictFixed(actions: seq<Action>, i: nat)
    requires i < |actions| && Contends(actions[i].op) && AllHex(actions[i].op.source.parts)
    ensures ConflictNormal(actions, i) <==> EntrantOk(actions[i].op) && SuffixesOk(actions, i) && Settled(actions, i) == actions[i]
  {
    RankReads(actions, i);
    SettledStays(actions, i);
    hide Crowd, Rank, Before, Competing, Base, NameAt, Suffixable, AllHex, Joined, SameTarget, Settled, EntrantOf;
    assert PriorOrdinal(NoConflict) == 0;
  }

  lemma ConflictsFixed(actions: seq<Action>)
    requires forall i :: 0 <= i < |actions| && Contends(actions[i].op) ==> AllHex(actions[i].op.source.parts)
    ensures ConflictsNormal(actions) <==> ConflictsOk(actions) && ConflictPass(actions) == actions
  {
    forall i: nat | i < |actions|
      ensures Contends(actions[i].op) ==> (ConflictNormal(actions, i) <==>
        EntrantOk(actions[i].op) && SuffixesOk(actions, i) && Settled(actions, i) == actions[i])
      ensures !Contends(actions[i].op) ==> EntrantOk(actions[i].op) && SuffixesOk(actions, i) && Settled(actions, i) == actions[i]
    {
      if Contends(actions[i].op) { ConflictFixed(actions, i); }
    }
    hide ConflictNormal, EntrantOk, SuffixesOk, Settled;
    if ConflictPass(actions) == actions {
      assert forall i :: 0 <= i < |actions| ==> ConflictPass(actions)[i] == Settled(actions, i);
    }
  }

  lemma ActionFixed(env: Env, a: Action, k: nat)
    ensures ActionNormal(env, a, k) <==>
      OpHex(a.op) && ShowAction(env)(a) == a && StampSlot(env)(a) == a && StampId(env, a, k) == a
  {
    hide ActionId, Slot, Shown, AllHex;
  }

  lemma ActionPassOutput(env: Env, actions: seq<Action>)
    requires ActionPass(env, actions) == actions
    ensures SortedBy(actions, ActionKey)
    ensures forall k :: 0 <= k < |actions| ==> StampSlot(env)(actions[k]) == actions[k] && StampId(env, actions[k], k) == actions[k]
  {
    var slotted := Mapped(actions, StampSlot(env));
    hide KeyLe, SortBy;
    SortBySorted(slotted, ActionKey);
    StampedSorted(env, SortBy(slotted, ActionKey));
    forall k | 0 <= k < |actions| ensures StampSlot(env)(actions[k]) == actions[k] && StampId(env, actions[k], k) == actions[k] {
      var i := SortedFrom(actions, StampSlot(env), ActionKey, k);
      ActionStays(env, actions[i], k);
    }
    hide StampSlot, ActionKey, StampId;
  }

  lemma ActionPassFixed(env: Env, actions: seq<Action>)
    ensures ActionPass(env, actions) == actions <==>
      SortedBy(actions, ActionKey)
      && forall k :: 0 <= k < |actions| ==> StampSlot(env)(actions[k]) == actions[k] && StampId(env, actions[k], k) == actions[k]
  {
    hide StampSlot, ActionKey, StampId, KeyLe, SortBy;
    if ActionPass(env, actions) == actions { ActionPassOutput(env, actions); }
    if SortedBy(actions, ActionKey)
      && forall k :: 0 <= k < |actions| ==> StampSlot(env)(actions[k]) == actions[k] && StampId(env, actions[k], k) == actions[k]
    {
      assert Mapped(actions, StampSlot(env)) == actions;
      SortByOfSorted(actions, ActionKey);
      assert Stamped(env, actions) == actions;
    }
  }

  lemma MembersInOrder(members: seq<GroupMember>)
    ensures SortedBy(members, MemberKey) <==>
              forall j, k :: 0 <= j < k < |members| ==> EntryLe(KeyOf(members[j].entry), KeyOf(members[k].entry))
  {
  }

  lemma KeepersInOrder(groups: seq<Group>)
    ensures SortedBy(groups, KeeperKey) <==>
              forall j, k :: 0 <= j < k < |groups| ==> EntryLe(KeyOf(groups[j].keeper), KeyOf(groups[k].keeper))
  {
  }

  lemma ExcludedInOrder(excluded: seq<Excluded>)
    ensures SortedBy(excluded, ExcludedKey) <==> forall j, k :: 0 <= j < k < |excluded| ==>
              EntryLe(EntryKey(excluded[j].root, excluded[j].file), EntryKey(excluded[k].root, excluded[k].file))
  {
  }

  lemma GroupFixed(env: Env, g: Group)
    ensures GroupNormal(env, g) <==>
      GroupHex(g) && ShowGroup(env)(g) == g && SortMembers(g) == g && StampGroup(env)(g) == g
  {
    MembersInOrder(g.members);
    SortBySorted(g.members, MemberKey);
    if SortedBy(g.members, MemberKey) { SortByOfSorted(g.members, MemberKey); }
    hide SortBy, KeyLe, MemberKey, EntryLe, GroupId, RemainingRoots, AllHex, Shown;
    MembersShown(env, g.members);
  }

  lemma MembersShown(env: Env, members: seq<GroupMember>)
    ensures Mapped(members, ShowMember(env)) == members <==>
              forall k :: 0 <= k < |members| ==> members[k].entry.display == Shown(env, members[k].entry.parts)
  {
    hide Shown;
    forall k | 0 <= k < |members|
      ensures Mapped(members, ShowMember(env))[k] == members[k] <==>
        members[k].entry.display == Shown(env, members[k].entry.parts)
    {
    }
    hide Mapped, ShowMember;
  }

  lemma GroupPassOutput(env: Env, groups: seq<Group>)
    requires GroupPass(env, groups) == groups
    ensures SortedBy(groups, KeeperKey)
    ensures forall k :: 0 <= k < |groups| ==> SortMembers(groups[k]) == groups[k] && StampGroup(env)(groups[k]) == groups[k]
  {
    var sorted := SortBy(Mapped(groups, SortMembers), KeeperKey);
    SortBySorted(Mapped(groups, SortMembers), KeeperKey);
    hide KeyLe, SortBy;
    forall k | 0 <= k < |groups|
      ensures SortMembers(groups[k]) == groups[k] && StampGroup(env)(groups[k]) == groups[k]
      ensures KeeperKey(groups[k]) == KeeperKey(sorted[k])
    {
      var i := SortedFrom(groups, SortMembers, KeeperKey, k);
      GroupStays(env, groups[i]);
      hide StampGroup, SortMembers, KeeperKey;
    }
    hide StampGroup, SortMembers, KeeperKey;
  }

  lemma GroupPassFixed(env: Env, groups: seq<Group>)
    ensures GroupPass(env, groups) == groups <==>
      SortedBy(groups, KeeperKey)
      && forall k :: 0 <= k < |groups| ==> SortMembers(groups[k]) == groups[k] && StampGroup(env)(groups[k]) == groups[k]
  {
    hide KeyLe, StampGroup, SortMembers, KeeperKey, SortBy;
    if GroupPass(env, groups) == groups { GroupPassOutput(env, groups); }
    if SortedBy(groups, KeeperKey)
      && forall k :: 0 <= k < |groups| ==> SortMembers(groups[k]) == groups[k] && StampGroup(env)(groups[k]) == groups[k]
    {
      assert Mapped(groups, SortMembers) == groups;
      SortByOfSorted(groups, KeeperKey);
      assert Mapped(groups, StampGroup(env)) == groups;
    }
  }

  // ----- display and finishing together

  lemma ActionsFixed(env: Env, actions: seq<Action>)
    ensures ActionsNormal(env, actions) <==>
      (forall i :: 0 <= i < |actions| ==> OpHex(actions[i].op))
      && Mapped(actions, ShowAction(env)) == actions && ActionPass(env, actions) == actions
  {
    ActionPassFixed(env, actions);
    ActionsInOrder(actions);
    hide ActionPass, SortedBy, ActionKey, Listed;
    forall k | 0 <= k < |actions|
      ensures ActionNormal(env, actions[k], k) <==>
        OpHex(actions[k].op) && ShowAction(env)(actions[k]) == actions[k]
        && StampSlot(env)(actions[k]) == actions[k] && StampId(env, actions[k], k) == actions[k]
    {
      ActionFixed(env, actions[k], k);
    }
    hide ActionNormal, OpHex, ShowAction, StampSlot, StampId;
    if Mapped(actions, ShowAction(env)) == actions {
      assert forall k :: 0 <= k < |actions| ==> Mapped(actions, ShowAction(env))[k] == ShowAction(env)(actions[k]);
    }
  }

  lemma GroupsFixed(env: Env, groups: seq<Group>)
    ensures GroupsNormal(env, groups) <==>
      (forall i :: 0 <= i < |groups| ==> GroupHex(groups[i]))
      && Mapped(groups, ShowGroup(env)) == groups && GroupPass(env, groups) == groups
  {
    GroupPassFixed(env, groups);
    KeepersInOrder(groups);
    hide GroupPass, SortedBy, KeeperKey, EntryLe;
    forall k | 0 <= k < |groups|
      ensures GroupNormal(env, groups[k]) <==>
        GroupHex(groups[k]) && ShowGroup(env)(groups[k]) == groups[k]
        && SortMembers(groups[k]) == groups[k] && StampGroup(env)(groups[k]) == groups[k]
    {
      GroupFixed(env, groups[k]);
    }
    hide GroupNormal, GroupHex, ShowGroup, SortMembers, StampGroup;
    if Mapped(groups, ShowGroup(env)) == groups {
      assert forall k :: 0 <= k < |groups| ==> Mapped(groups, ShowGroup(env))[k] == ShowGroup(env)(groups[k]);
    }
  }

  lemma ExcludedFixed(env: Env, excluded: seq<Excluded>)
    ensures ExcludedNormal(env, excluded) <==>
      (forall i :: 0 <= i < |excluded| ==> AllHex(excluded[i].parts))
      && Mapped(excluded, ShowExcluded(env)) == excluded && SortBy(excluded, ExcludedKey) == excluded
  {
    ExcludedInOrder(excluded);
    SortBySorted(excluded, ExcludedKey);
    if SortedBy(excluded, ExcludedKey) { SortByOfSorted(excluded, ExcludedKey); }
    hide SortBy, SortedBy, ExcludedKey, EntryLe, AllHex, Shown;
    forall k | 0 <= k < |excluded|
      ensures ShowExcluded(env)(excluded[k]) == excluded[k] <==> excluded[k].display == Shown(env, excluded[k].parts) {}
    hide ShowExcluded;
    if Mapped(excluded, ShowExcluded(env)) == excluded {
      assert forall k :: 0 <= k < |excluded| ==> Mapped(excluded, ShowExcluded(env))[k] == ShowExcluded(env)(excluded[k]);
    }
  }

  lemma FinishFixed(env: Env, d: Doc)
    ensures DisplayOk(d) && DisplayPass(env, d) == d && Finished(env, d) == d <==>
      ActionsNormal(env, d.actions) && GroupsNormal(env, d.groups) && ExcludedNormal(env, d.excluded)
      && d.summary == SummaryOf(d.actions, d.groups, d.excluded)
  {
    hide ActionsNormal, GroupsNormal, ExcludedNormal, ActionPass, GroupPass, Mapped, SortBy, SummaryOf, OpHex, GroupHex, AllHex;
    ActionsFixed(env, d.actions);
    GroupsFixed(env, d.groups);
    ExcludedFixed(env, d.excluded);
  }

  lemma NormalSourcesHex(env: Env, actions: seq<Action>)
    requires ActionsNormal(env, actions)
    ensures forall i :: 0 <= i < |actions| && Contends(actions[i].op) ==> AllHex(actions[i].op.source.parts)
  {
    hide AllHex, ActionId, Slot, Shown, Listed;
  }

  lemma OkSourcesHex(d: Doc)
    requires ConflictsOk(d.actions)
    ensures forall i :: 0 <= i < |d.actions| && Contends(d.actions[i].op) ==> AllHex(d.actions[i].op.source.parts)
  {
    hide AllHex, BaseOk, SuffixesOk;
  }

  lemma NormalIsVerified(env: Env, d: Doc)
    requires Normal(env, d)
    ensures Verified(env, d)
  {
    RootsFixed(env, d);
    NormalSourcesHex(env, d.actions);
    ConflictsFixed(d.actions);
    FinishFixed(env, d);
    hide RootsNormal, ActionsNormal, ConflictsNormal, GroupsNormal, ExcludedNormal, RefsKnown, RootsOk, RootPass;
    hide ConflictsOk, ConflictPass, DisplayOk, DisplayPass, Finished, SummaryOf;
    assert d.(actions := ConflictPass(d.actions)) == d;
  }

  lemma VerifiedPasses(env: Env, d: Doc)
    requires Verified(env, d)
    ensures RefsKnown(d) && RootsOk(d) && RootPass(env, d) == d
    ensures ConflictsOk(d.actions) && ConflictPass(d.actions) == d.actions
    ensures DisplayOk(d) && DisplayPass(env, d) == d && Finished(env, d) == d
  {
    VerifiedIs(env, d);
    CanonicalRoots(env, d);
    RootPassStays(env, d, d);
    hide RootPass, SortedRoots, RefsKnown, IdsDistinct, RootsHex;
    SecondPassShows(env, d);
    hide ConflictsOk, ConflictPass, DisplayOk;
    assert d.(actions := ConflictPass(d.actions)) == d;
    hide DisplayPass, Finished;
    FinishStays(env, d);
  }

  // The load-time check accepts exactly the documents in normal form.
  lemma VerifiedIsNormal(env: Env, d: Doc)
    ensures Verified(env, d) <==> Normal(env, d)
  {
    if Normal(env, d) { NormalIsVerified(env, d); }
    if Verified(env, d) {
      hide Verified, RefsKnown, RootsOk, ConflictsOk, ConflictPass, DisplayOk, DisplayPass, Finished, SummaryOf, RootPass;
      hide RootsNormal, ActionsNormal, ConflictsNormal, GroupsNormal, ExcludedNormal;
      VerifiedPasses(env, d);
      RootsFixed(env, d);
      OkSourcesHex(d);
      ConflictsFixed(d.actions);
      FinishFixed(env, d);
    }
  }
}
