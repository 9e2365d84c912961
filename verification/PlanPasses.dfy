/**
 The canonicalization passes as the source runs them: loops over a document they rewrite in
 place (src/core/plan.rs). Each is proved to leave exactly the document that PlanDoc says it
 leaves, and to refuse exactly the documents PlanDoc says it refuses.
 */
module PlanPasses {
  import opened Basics
  import opened Order
  import opened Hex
  import opened Permute
  import opened Contest
  import opened PlanDoc

  function Lookup(remap: map<nat, nat>, id: nat): nat {
    if id in remap then remap[id] else id
  }

  function SourceBy(s: SourceRef, remap: map<nat, nat>): SourceRef {
    s.(root := Lookup(remap, s.root))
  }

  function DestBy(d: DestPath, remap: map<nat, nat>): DestPath {
    d.(root := Lookup(remap, d.root))
  }

  function OpBy(op: Op, remap: map<nat, nat>): Op {
    match op
    case Mkdir(d) => Mkdir(DestBy(d, remap))
    case Move(d, s, c) => Move(DestBy(d, remap), SourceBy(s, remap), c)
    case Extract(d, s, c) => Extract(DestBy(d, remap), SourceBy(s, remap), c)
    case Quarantine(d, s, g, t) => Quarantine(DestBy(d, remap), SourceBy(s, remap), g, t)
  }

  ghost predicate Renumbers(remap: map<nat, nat>, ordered: seq<Root>) {
    forall id: nat :: Lookup(remap, id) == NewId(ordered, id)
  }

  lemma RenumbersNext(remap: map<nat, nat>, ordered: seq<Root>, i: nat)
    requires i < |ordered| && Renumbers(remap, ordered[..i])
    ensures Renumbers(remap[ordered[i].rootId := i], ordered[..i + 1])
  {
    var next := ordered[..i + 1];
    assert next[..i] == ordered[..i];
    forall id: nat ensures NewId(next, id) == if id == ordered[i].rootId then i else NewId(ordered[..i], id) {}
  }

  // A member of a collision set given its rank.
  function Ranking(a: Action, base: seq<Text>, rank: nat, competing: seq<EntryKey>): Action
    requires Contends(a.op)
  {
    a.(op := SetConflict(SetDestParts(a.op, NameAt(base, rank)), SuffixOrdinal(rank, competing)))
  }

  class Plan {
    const env: Env
    const kind: PlanKind
    var roots: seq<Root>
    var actions: seq<Action>
    var groups: seq<Group>
    var excluded: seq<Excluded>
    var summary: Summary

    ghost function Contents(): Doc
      reads this
    {
      Doc(kind, roots, actions, groups, excluded, summary)
    }

    constructor (env: Env, d: Doc)
      ensures Contents() == d && this.env == env
    {
      this.env, kind := env, d.kind;
      roots, actions, groups, excluded, summary := d.roots, d.actions, d.groups, d.excluded, d.summary;
    }

    // ----- roots

    method IdsAreDistinct() returns (ok: bool)
      ensures ok <==> IdsDistinct(roots)
    {
      var seen: set<nat> := {};
      for i := 0 to |roots|
        invariant forall id: nat :: id in seen <==> HasRoot(roots[..i], id)
        invariant IdsDistinct(roots[..i])
      {
        var id := roots[i].rootId;
        assert roots[..i + 1] == roots[..i] + [roots[i]];
        if id in seen {
          assert HasRoot(roots[..i], id);
          return false;
        }
        assert forall k :: 0 <= k < i ==> roots[..i][k].rootId != id;
        forall other: nat ensures other in seen + {id} <==> HasRoot(roots[..i + 1], other) {
          if HasRoot(roots[..i], other) {
            var k :| 0 <= k < i && roots[..i][k].rootId == other;
            assert roots[..i + 1][k].rootId == other;
          }
          assert roots[..i + 1][i].rootId == id;
        }
        seen := seen + {id};
      }
      assert roots[..|roots|] == roots;
      return true;
    }

    // Every root id the document mentions is the id of one of its roots.
    method RefsAreKnown() returns (ok: bool)
      ensures ok <==> RefsKnown(Contents())
    {
      var known := set r | r in roots :: r.rootId;
      assert forall id: nat :: id in known <==> HasRoot(roots, id);
      for i := 0 to |actions|
        invariant forall k :: 0 <= k < i ==> OpKnown(roots, actions[k].op)
      {
        var op := actions[i].op;
        if op.dest.root !in known || (!op.Mkdir? && op.source.root !in known) { return false; }
      }
      for i := 0 to |groups|
        invariant forall k :: 0 <= k < i ==> GroupKnown(roots, groups[k])
      {
        if groups[i].keeper.root !in known { return false; }
        var members := groups[i].members;
        for m := 0 to |members|
          invariant forall k :: 0 <= k < m ==> HasRoot(roots, members[k].entry.root)
        {
          if members[m].entry.root !in known { return false; }
        }
      }
      for i := 0 to |excluded|
        invariant forall k :: 0 <= k < i ==> HasRoot(roots, excluded[k].root)
      {
        if excluded[i].root !in known { return false; }
      }
      return true;
    }

    method PathsAreHex() returns (ok: bool)
      ensures ok <==> RootsHex(roots)
    {
      for i := 0 to |roots|
        invariant forall k :: 0 <= k < i ==> IsHex(roots[k].pathRaw)
      {
        if Unhex(roots[i].pathRaw).Err? { return false; }
      }
      return true;
    }

    method RenumberRoots() returns (remap: map<nat, nat>)
      modifies this`roots
      ensures roots == Renumbered(env, SortedRoots(old(roots)))
      ensures Renumbers(remap, SortedRoots(old(roots)))
    {
      var ordered := SortBy(roots, RootKey);
      remap := map[];
      var renamed: seq<Root> := [];
      assert ordered[..0] == [];
      assert Renumbers(remap, ordered[..0]);
      hide Renumbers, SortBy, RootKey;
      for i := 0 to |ordered|
        invariant Renumbers(remap, ordered[..i])
        invariant |renamed| == i && forall k :: 0 <= k < i ==> renamed[k] == Renumbered(env, ordered)[k]
      {
        var r := ordered[i];
        RenumbersNext(remap, ordered, i);
        remap := remap[r.rootId := i];
        renamed := renamed + [r.(rootId := i, pathDisplay := env.lossy(Bytes(r.pathRaw)))];
      }
      assert ordered[..|ordered|] == ordered;
      roots := renamed;
    }

    method CanonicalizeRoots() returns (ok: bool)
      modifies this`roots, this`actions, this`groups, this`excluded
      ensures ok <==> RootsOk(old(Contents()))
      ensures Contents() == if ok then RootPass(env, old(Contents())) else old(Contents())
    {
      var distinct := IdsAreDistinct();
      if !distinct { return false; }
      var known := RefsAreKnown();
      if !known { return false; }
      var hex := PathsAreHex();
      if !hex { return false; }
      ghost var d := Contents();
      ghost var ordered := SortedRoots(roots);
      var remap := RenumberRoots();
      RemapActions(remap, ordered);
      RemapGroups(remap, ordered);
      RemapExcludedEntries(remap, ordered);
      return true;
    }

    method RemapActions(remap: map<nat, nat>, ghost ordered: seq<Root>)
      requires Renumbers(remap, ordered)
      modifies this`actions
      ensures actions == Mapped(old(actions), RemapAction(ordered))
    {
      for i := 0 to |actions|
        invariant |actions| == |old(actions)|
        invariant forall k :: 0 <= k < i ==> actions[k] == RemapAction(ordered)(old(actions)[k])
        invariant forall k :: i <= k < |actions| ==> actions[k] == old(actions)[k]
      {
        assert OpBy(actions[i].op, remap) == RemapOp(actions[i].op, ordered);
        actions := actions[i := actions[i].(op := OpBy(actions[i].op, remap))];
      }
    }

    method RemapGroups(remap: map<nat, nat>, ghost ordered: seq<Root>)
      requires Renumbers(remap, ordered)
      modifies this`groups
      ensures groups == Mapped(old(groups), RemapGroup(ordered))
    {
      for i := 0 to |groups|
        invariant |groups| == |old(groups)|
        invariant forall k :: 0 <= k < i ==> groups[k] == RemapGroup(ordered)(old(groups)[k])
        invariant forall k :: i <= k < |groups| ==> groups[k] == old(groups)[k]
      {
        var members := groups[i].members;
        for m := 0 to |members|
          invariant |members| == |groups[i].members|
          invariant forall k :: 0 <= k < m ==> members[k] == RemapMember(ordered)(groups[i].members[k])
          invariant forall k :: m <= k < |members| ==> members[k] == groups[i].members[k]
        {
          members := members[m := members[m].(entry := SourceBy(members[m].entry, remap))];
        }
        assert members == Mapped(groups[i].members, RemapMember(ordered));
        groups := groups[i := groups[i].(keeper := SourceBy(groups[i].keeper, remap), members := members)];
      }
    }

    method RemapExcludedEntries(remap: map<nat, nat>, ghost ordered: seq<Root>)
      requires Renumbers(remap, ordered)
      modifies this`excluded
      ensures excluded == Mapped(old(excluded), RemapExcluded(ordered))
    {
      for i := 0 to |excluded|
        invariant |excluded| == |old(excluded)|
        invariant forall k :: 0 <= k < i ==> excluded[k] == RemapExcluded(ordered)(old(excluded)[k])
        invariant forall k :: i <= k < |excluded| ==> excluded[k] == old(excluded)[k]
      {
        excluded := excluded[i := excluded[i].(root := Lookup(remap, excluded[i].root))];
      }
    }

    // ----- destination conflicts

    method CollectEntrants() returns (ok: bool, es: Entrants)
      ensures ok <==> forall i :: 0 <= i < |actions| ==> EntrantOk(actions[i].op)
      ensures ok ==> es == EntrantsOf(actions)
    {
      es := [];
      for i := 0 to |actions|
        invariant |es| == i && forall k :: 0 <= k < i ==> es[k] == EntrantOf(actions[k]) && EntrantOk(actions[k].op)
      {
        var op := actions[i].op;
        if Contends(op) {
          if !BaseOk(op.dest.parts, op.conflict) || !AllHex(op.source.parts) { return false, []; }
        }
        es := es + [EntrantOf(actions[i])];
      }
      return true, es;
    }

    // An action alone in its collision set.
    method SettleLone(ghost before: seq<Action>, ghost es: Entrants, at: nat, ghost i: nat)
      requires IsRanked(before, es, [at], i)
      requires |actions| == |before| && forall k :: k in [at] && k < |before| ==> actions[k] == before[k]
      modifies this`actions
      ensures |actions| == |before| && RankedOk(before, i)
      ensures forall k :: 0 <= k < |before| && k !in [at] ==> actions[k] == old(actions)[k]
      ensures forall k :: 0 <= k < |before| && k in [at] ==> actions[k] == ConflictPass(before)[k]
    {
      OnlyRival(es, i, at);
      hide Ranked, Crowd;
      actions := actions[at := actions[at].(op := SetConflict(actions[at].op, NoConflict))];
    }

    // A collision set of two or more, already ranked.
    method SettleRanked(ghost before: seq<Action>, es: Entrants, ranked: seq<nat>, ghost i: nat) returns (ok: bool)
      requires IsRanked(before, es, ranked, i) && |ranked| != 1
      requires |actions| == |before| && forall k :: k in ranked && k < |before| ==> actions[k] == before[k]
      modifies this`actions
      ensures |actions| == |before|
      ensures forall k :: 0 <= k < |before| && k !in ranked ==> actions[k] == old(actions)[k]
      ensures ok <==> RankedOk(before, i)
      ensures ok ==> forall k :: 0 <= k < |before| && k in ranked ==> actions[k] == ConflictPass(before)[k]
    {
      ghost var settled := ConflictPass(before);
      RankedPlaces(before, es, ranked, i);
      hide IsRanked, RankedOk, ConflictPass, Suffixable, Ranking, Overwritten, Distinct, SortBy, Mapped;
      var competing := SortBy(Mapped(ranked, EntryAt(es)), EntryOrder);
      OverwriteStart(actions, settled, ranked);
      for r := 0 to |ranked|
        invariant Overwritten(old(actions), settled, ranked, r, actions)
        invariant r >= 2 ==> RankedOk(before, i)
      {
        MemberSettles(before, es, ranked, i, r);
        var at := ranked[r];
        var base := es[at].value.wants.parts;
        OverwriteStep(old(actions), settled, ranked, r, actions);
        assert actions[at] == before[at] by { assert at in ranked; }
        if r > 0 && !Suffixable(base) {
          OverwriteFrame(old(actions), settled, ranked, r, actions);
          return false;
        }
        actions := actions[at := Ranking(actions[at], base, r, competing)];
      }
      OverwriteFrame(old(actions), settled, ranked, |ranked|, actions);
      return true;
    }

    method CanonicalizeConflicts() returns (ok: bool)
      modifies this`actions
      ensures ok <==> ConflictsOk(old(actions))
      ensures ok ==> actions == ConflictPass(old(actions))
    {
      var good, es := CollectEntrants();
      if !good { return false; }
      ghost var before := actions;
      var sets := GroupIndices(Labels(es));
      var remaining := sets.Keys - {None};
      AllRemain(before, es, remaining);
      hide IsRanked, RankedOk, ConflictPass, ConflictsOk, SettledBut, Labels, EntrantsOf, SortBy;
      while remaining != {}
        invariant remaining <= sets.Keys - {None}
        invariant SettledBut(before, es, remaining, actions)
        decreases |remaining|
      {
        var wanted :| wanted in remaining;
        var ranked := SortBy(sets[wanted], RankKeyAt(es));
        ghost var i := SetIsRanked(before, es, wanted);
        IsRankedFacts(before, es, ranked, i);
        SetUntouched(before, es, remaining, actions, wanted, ranked, i);
        ghost var current := actions;
        if |ranked| == 1 {
          SettleLone(before, es, ranked[0], i) by { assert ranked == [ranked[0]]; }
          assert ranked == [ranked[0]];
        } else {
          var suffixed := SettleRanked(before, es, ranked, i);
          if !suffixed {
            NotRankedOk(before, i);
            return false;
          }
        }
        SetDone(before, es, remaining, current, actions, wanted, ranked, i);
        remaining := remaining - {wanted};
      }
      NoneRemain(before, es, actions);
      return true;
    }

    // ----- display fields

    method ShowActions() returns (ok: bool)
      modifies this`actions
      ensures ok <==> forall i :: 0 <= i < |old(actions)| ==> OpHex(old(actions)[i].op)
      ensures ok ==> actions == Mapped(old(actions), ShowAction(env))
    {
      for i := 0 to |actions|
        invariant |actions| == |old(actions)|
        invariant forall k :: 0 <= k < i ==> OpHex(old(actions)[k].op) && actions[k] == ShowAction(env)(old(actions)[k])
        invariant forall k :: i <= k < |actions| ==> actions[k] == old(actions)[k]
      {
        var op := actions[i].op;
        if !AllHex(op.dest.parts) || (!op.Mkdir? && !AllHex(op.source.parts)) { return false; }
        actions := actions[i := ShowAction(env)(actions[i])];
      }
      return true;
    }

    method ShowGroups() returns (ok: bool)
      modifies this`groups
      ensures ok <==> forall i :: 0 <= i < |old(groups)| ==> GroupHex(old(groups)[i])
      ensures ok ==> groups == Mapped(old(groups), ShowGroup(env))
    {
      for i := 0 to |groups|
        invariant |groups| == |old(groups)|
        invariant forall k :: 0 <= k < i ==> GroupHex(old(groups)[k]) && groups[k] == ShowGroup(env)(old(groups)[k])
        invariant forall k :: i <= k < |groups| ==> groups[k] == old(groups)[k]
      {
        var g := groups[i];
        if !AllHex(g.keeper.parts) { return false; }
        var members := g.members;
        for m := 0 to |members|
          invariant |members| == |g.members|
          invariant forall k :: 0 <= k < m ==> AllHex(g.members[k].entry.parts)
          invariant forall k :: 0 <= k < m ==> members[k] == ShowMember(env)(g.members[k])
          invariant forall k :: m <= k < |members| ==> members[k] == g.members[k]
        {
          if !AllHex(members[m].entry.parts) { return false; }
          members := members[m := ShowMember(env)(members[m])];
        }
        assert members == Mapped(g.members, ShowMember(env));
        groups := groups[i := g.(keeper := ShowSource(env, g.keeper), members := members)];
      }
      return true;
    }

    method ShowExcludedEntries() returns (ok: bool)
      modifies this`excluded
      ensures ok <==> forall i :: 0 <= i < |old(excluded)| ==> AllHex(old(excluded)[i].parts)
      ensures ok ==> excluded == Mapped(old(excluded), ShowExcluded(env))
    {
      for i := 0 to |excluded|
        invariant |excluded| == |old(excluded)|
        invariant forall k :: 0 <= k < i ==> AllHex(old(excluded)[k].parts)
        invariant forall k :: 0 <= k < i ==> excluded[k] == ShowExcluded(env)(old(excluded)[k])
        invariant forall k :: i <= k < |excluded| ==> excluded[k] == old(excluded)[k]
      {
        if !AllHex(excluded[i].parts) { return false; }
        excluded := excluded[i := ShowExcluded(env)(excluded[i])];
      }
      return true;
    }

    method CanonicalizeDisplayFields() returns (ok: bool)
      modifies this`actions, this`groups, this`excluded
      ensures ok <==> DisplayOk(old(Contents()))
      ensures ok ==> Contents() == DisplayPass(env, old(Contents()))
    {
      hide OpHex, GroupHex, AllHex, ShowAction, ShowGroup, ShowExcluded;
      var shown := ShowActions();
      if !shown { return false; }
      shown := ShowGroups();
      if !shown { return false; }
      ok := ShowExcludedEntries();
    }

    // ----- groups

    method SortAllMembers()
      modifies this`groups
      ensures groups == Mapped(old(groups), SortMembers)
    {
      hide SortBy;
      for i := 0 to |groups|
        invariant |groups| == |old(groups)|
        invariant forall k :: 0 <= k < i ==> groups[k] == SortMembers(old(groups)[k])
        invariant forall k :: i <= k < |groups| ==> groups[k] == old(groups)[k]
      {
        groups := groups[i := groups[i].(members := SortBy(groups[i].members, MemberKey))];
      }
    }

    method StampGroups()
      modifies this`groups
      ensures groups == Mapped(old(groups), StampGroup(env))
    {
      hide GroupId, RemainingRoots;
      for i := 0 to |groups|
        invariant |groups| == |old(groups)|
        invariant forall k :: 0 <= k < i ==> groups[k] == StampGroup(env)(old(groups)[k])
        invariant forall k :: i <= k < |groups| ==> groups[k] == old(groups)[k]
      {
        var g := groups[i];
        var remaining := CountRemainingRoots(g);
        groups := groups[i := g.(groupId := GroupId(env, g), floor := g.floor.(remainingAfter := remaining))];
      }
    }

    method CanonicalizeGroups()
      modifies this`groups
      ensures groups == GroupPass(env, old(groups))
    {
      hide SortBy, SortMembers, StampGroup;
      SortAllMembers();
      groups := SortBy(groups, KeeperKey);
      StampGroups();
    }

    // The roots a group's content is still on once its quarantined members are gone.
    static method CountRemainingRoots(g: Group) returns (n: nat)
      ensures n == |RemainingRoots(g)|
    {
      var roots := {g.keeper.root};
      for m := 0 to |g.members|
        invariant roots == {g.keeper.root} + set k | 0 <= k < m && g.members[k].disposition != Quarantined :: g.members[k].entry.root
      {
        if g.members[m].disposition != Quarantined {
          roots := roots + {g.members[m].entry.root};
        }
      }
      assert roots == RemainingRoots(g);
      return |roots|;
    }

    // ----- actions

    method StampSlots()
      modifies this`actions
      ensures actions == Mapped(old(actions), StampSlot(env))
    {
      hide Slot;
      for i := 0 to |actions|
        invariant |actions| == |old(actions)|
        invariant forall k :: 0 <= k < i ==> actions[k] == StampSlot(env)(old(actions)[k])
        invariant forall k :: i <= k < |actions| ==> actions[k] == old(actions)[k]
      {
        if actions[i].op.Quarantine? {
          var op := actions[i].op;
          actions := actions[i := actions[i].(op := op.(slot := Slot(env, op.groupId, op.source)))];
        }
      }
    }

    method ListInOrder()
      modifies this`actions
      ensures |actions| == |old(actions)|
      ensures forall k :: 0 <= k < |actions| ==> actions[k] == SortBy(old(actions), ActionKey)[k].(ordinal := k)
    {
      hide SortBy;
      var order := OrderActions();
      var listed: seq<Action> := [];
      for k := 0 to |order|
        invariant |listed| == k
        invariant forall x :: 0 <= x < k ==> listed[x] == SortBy(actions, ActionKey)[x].(ordinal := x)
      {
        listed := listed + [actions[order[k]].(ordinal := k)];
      }
      actions := listed;
    }

    // Ids last: they see the final destination.
    method StampIds()
      modifies this`actions
      ensures |actions| == |old(actions)|
      ensures forall k :: 0 <= k < |actions| ==> actions[k] == old(actions)[k].(actionId := ActionId(env, old(actions)[k].op))
    {
      hide ActionId;
      for i := 0 to |actions|
        invariant |actions| == |old(actions)|
        invariant forall k :: 0 <= k < i ==> actions[k] == old(actions)[k].(actionId := ActionId(env, old(actions)[k].op))
        invariant forall k :: i <= k < |actions| ==> actions[k] == old(actions)[k]
      {
        actions := actions[i := actions[i].(actionId := ActionId(env, actions[i].op))];
      }
    }

    method CanonicalizeActions()
      modifies this`actions
      ensures actions == ActionPass(env, old(actions))
    {
      hide SortBy, StampSlot, ActionId;
      StampSlots();
      ghost var sorted := SortBy(actions, ActionKey);
      ListInOrder();
      StampIds();
      assert actions == Stamped(env, sorted);
    }

    // Positions of the actions, stably sorted by action key.
    method OrderActions() returns (order: seq<nat>)
      ensures Rearranges(order, |actions|)
      ensures forall k :: 0 <= k < |actions| ==> SortBy(actions, ActionKey)[k] == actions[order[k]]
    {
      if actions == [] { return []; }
      order := SortBy(Indices(|actions|), KeyAt(actions, ActionKey));
      SortedIndices(|actions|, KeyAt(actions, ActionKey));
      SortByPositions(actions, ActionKey);
      hide SortBy, KeyAt;
      forall k | 0 <= k < |actions| ensures SortBy(actions, ActionKey)[k] == actions[order[k]] {
        assert Mapped(order, At(actions))[k] == At(actions)(order[k]);
      }
    }

    // ----- totals

    method RecomputeSummary()
      modifies this`summary
      ensures summary == SummaryOf(actions, groups, excluded)
    {
      hide AddOrdered, Tag;
      var byTag: map<Text, nat> := map[];
      var bytes, written := 0, [];
      assert actions[..0] == [] && excluded[..0] == [];
      for i := 0 to |actions|
        invariant forall t :: CountTag(actions[..i], t) == if t in byTag then byTag[t] else 0
        invariant bytes == ActionBytes(actions[..i]) && written == RootsWritten(actions[..i])
      {
        var op := actions[i].op;
        assert actions[..i + 1][..i] == actions[..i];
        var tag := Tag(op);
        byTag := byTag[tag := (if tag in byTag then byTag[tag] else 0) + 1];
        if !op.Mkdir? { bytes := bytes + op.source.size; }
        written := AddOrdered(written, op.dest.root);
      }
      assert actions[..|actions|] == actions;
      var lines := TagLines(byTag, AllTags());
      var left := 0;
      for i := 0 to |excluded|
        invariant left == ExcludedBytes(excluded[..i])
      {
        assert excluded[..i + 1][..i] == excluded[..i];
        left := left + excluded[i].size;
      }
      assert excluded[..|excluded|] == excluded;
      summary := Summary(|actions|, lines, bytes, |groups|, |excluded|, left, written);
    }

    method TagLines(byTag: map<Text, nat>, tags: seq<Text>) returns (lines: seq<OpCount>)
      requires forall t :: CountTag(actions, t) == if t in byTag then byTag[t] else 0
      ensures lines == TagCounts(actions, tags)
    {
      lines := [];
      for i := 0 to |tags|
        invariant lines + TagCounts(actions, tags[i..]) == TagCounts(actions, tags)
      {
        assert tags[i..][0] == tags[i] && tags[i..][1..] == tags[i + 1..];
        if tags[i] in byTag && byTag[tags[i]] > 0 {
          lines := lines + [OpCount(tags[i], byTag[tags[i]])];
        }
      }
      assert tags[|tags|..] == [];
    }

    // ----- the whole

    method CanonicalizeInPlace() returns (ok: bool)
      modifies this
      ensures ok <==> Canonicalize(env, old(Contents())).Ok?
      ensures ok ==> Canonicalize(env, old(Contents())) == Ok(Contents())
    {
      hide RootsOk, RootPass, ConflictsOk, ConflictPass, DisplayOk, DisplayPass, GroupPass, ActionPass, SummaryOf;
      ok := CanonicalizeRoots();
      if !ok { return; }
      ok := CanonicalizeConflicts();
      if !ok { return; }
      ok := CanonicalizeDisplayFields();
      if !ok { return; }
      CanonicalizeGroups();
      CanonicalizeActions();
      excluded := SortBy(excluded, ExcludedKey);
      RecomputeSummary();
    }

    // Canonicalize a copy and compare.
    method VerifyDerived() returns (ok: bool)
      ensures ok <==> Verified(env, Contents())
    {
      var d := Doc(kind, roots, actions, groups, excluded, summary);
      var copy := new Plan(env, d);
      hide Canonicalize;
      ok := copy.CanonicalizeInPlace();
      if ok {
        ok := Doc(copy.kind, copy.roots, copy.actions, copy.groups, copy.excluded, copy.summary) == d;
      }
    }
  }

  // Every collision set is settled, and none failed, except those still wanted in `remaining`.
  ghost predicate SettledBut(before: seq<Action>, es: Entrants, remaining: set<Option<Label>>, now: seq<Action>) {
    && es == EntrantsOf(before) && |now| == |before| && None !in remaining
    && (forall k :: 0 <= k < |now| && Labels(es)[k] in remaining ==> now[k] == before[k])
    && (forall k :: 0 <= k < |now| && Labels(es)[k] !in remaining ==> now[k] == ConflictPass(before)[k])
    && (forall k :: 0 <= k < |now| && Labels(es)[k] !in remaining ==> SuffixesOk(before, k))
  }

  lemma RankedPlaces(before: seq<Action>, es: Entrants, ranked: seq<nat>, i: nat)
    requires IsRanked(before, es, ranked, i) && |ranked| != 1
    ensures Distinct(ranked) && |ranked| >= 2 && |ConflictPass(before)| == |before|
    ensures forall r :: 0 <= r < |ranked| ==> ranked[r] < |before|
  {
    IsRankedFacts(before, es, ranked, i);
    hide Ranked, Rivals;
    assert forall r :: 0 <= r < |ranked| ==> ranked[r] in ranked;
  }

  lemma AllRemain(before: seq<Action>, es: Entrants, remaining: set<Option<Label>>)
    requires es == EntrantsOf(before) && None !in remaining
    requires forall l: Option<Label> :: l in Labels(es) && l != None ==> l in remaining
    ensures SettledBut(before, es, remaining, before)
  {
    forall k | 0 <= k < |before| && Labels(es)[k] !in remaining
      ensures before[k] == ConflictPass(before)[k] && SuffixesOk(before, k)
    {
      assert Labels(es)[k] in Labels(es);
      assert !Contends(before[k].op);
    }
  }

  lemma NoneRemain(before: seq<Action>, es: Entrants, now: seq<Action>)
    requires SettledBut(before, es, {}, now) && forall k :: 0 <= k < |before| ==> EntrantOk(before[k].op)
    ensures ConflictsOk(before) && now == ConflictPass(before)
  {
  }

  lemma SetIsRanked(before: seq<Action>, es: Entrants, wanted: Option<Label>) returns (i: nat)
    requires es == EntrantsOf(before) && wanted in Labels(es) && wanted != None
    ensures IsRanked(before, es, SortBy(IndicesOf(Labels(es), wanted, |Labels(es)|), RankKeyAt(es)), i)
    ensures i < |es| && Labels(es)[i] == wanted
  {
    i :| 0 <= i < |Labels(es)| && Labels(es)[i] == wanted;
  }

  lemma SetUntouched(before: seq<Action>, es: Entrants, remaining: set<Option<Label>>, now: seq<Action>,
                     wanted: Option<Label>, ranked: seq<nat>, i: nat)
    requires SettledBut(before, es, remaining, now) && wanted in remaining && IsRanked(before, es, ranked, i)
    requires Labels(es)[i] == wanted
    ensures |now| == |before| && forall k :: k in ranked && k < |before| ==> now[k] == before[k]
  {
    IsRankedFacts(before, es, ranked, i);
    hide SortBy, Settled, SuffixesOk, Ranked, IsRanked;
  }

  lemma SetDone(before: seq<Action>, es: Entrants, remaining: set<Option<Label>>, was: seq<Action>, now: seq<Action>,
                wanted: Option<Label>, ranked: seq<nat>, i: nat)
    requires SettledBut(before, es, remaining, was) && wanted in remaining && IsRanked(before, es, ranked, i)
    requires Labels(es)[i] == wanted && RankedOk(before, i)
    requires |now| == |before| && forall k :: 0 <= k < |before| && k !in ranked ==> now[k] == was[k]
    requires forall k :: 0 <= k < |before| && k in ranked ==> now[k] == ConflictPass(before)[k]
    ensures SettledBut(before, es, remaining - {wanted}, now)
  {
    hide Ranked, SuffixesOk, ConflictPass, EntrantsOf;
    RankedIffWanted(before, es, wanted, ranked, i);
    forall k: nat | k < |before| && k in ranked ensures SuffixesOk(before, k) {
      SuffixesShared(before, k, i);
    }
    hide Labels, IsRanked, RankedOk, Rivals;
    forall k: nat | k < |now| ensures Labels(es)[k] in remaining - {wanted} <==> Labels(es)[k] in remaining && k !in ranked {}
  }

  lemma RankedIffWanted(before: seq<Action>, es: Entrants, wanted: Option<Label>, ranked: seq<nat>, i: nat)
    requires IsRanked(before, es, ranked, i) && Labels(es)[i] == wanted && wanted != None
    ensures |Labels(es)| == |es| == |before|
    ensures forall k: nat :: k < |before| ==> (k in ranked <==> Labels(es)[k] == wanted)
    ensures forall k: nat :: k < |before| ==> (k in ranked <==> Rivals(es, k, i))
  {
    IsRankedFacts(before, es, ranked, i);
    hide Ranked;
  }

  lemma SuffixesShared(actions: seq<Action>, k: nat, i: nat)
    requires k < |actions| && i < |actions| && Rivals(EntrantsOf(actions), k, i)
    ensures SuffixesOk(actions, k) <==> SuffixesOk(actions, i)
  {
    assert Crowd(EntrantsOf(actions), k) == Crowd(EntrantsOf(actions), i);
    hide Crowd, Base;
  }

  lemma NotRankedOk(before: seq<Action>, i: nat)
    requires i < |before| && !RankedOk(before, i)
    ensures !ConflictsOk(before)
  {
  }

  // `ranked` is the collision set of entrant i, in rank order.
  ghost predicate IsRanked(before: seq<Action>, es: Entrants, ranked: seq<nat>, i: nat) {
    es == EntrantsOf(before) && i < |before| && Contends(before[i].op) && ranked == Ranked(es, i)
  }

  ghost predicate RankedOk(before: seq<Action>, i: nat) {
    i < |before| && SuffixesOk(before, i)
  }

  lemma IsRankedFacts(before: seq<Action>, es: Entrants, ranked: seq<nat>, i: nat)
    requires IsRanked(before, es, ranked, i)
    ensures Distinct(ranked) && |es| == |before| && i < |before| && i in ranked
    ensures forall k: nat :: k in ranked <==> k < |before| && Rivals(es, k, i)
    ensures |ranked| != 1 ==> |ranked| >= 2
    ensures |ConflictPass(before)| == |before|
  {
    RankedIs(es, i);
    assert Rivals(es, i, i);
  }

  lemma OnlyRival(es: Entrants, i: nat, at: nat)
    requires i < |es| && es[i].Some? && Ranked(es, i) == [at]
    ensures at == i && |Crowd(es, i)| == 1 && forall k: nat :: k < |es| && Rivals(es, k, i) ==> k == i
  {
    RankedIs(es, i);
    assert Rivals(es, i, i);
    assert i in Ranked(es, i);
  }

  lemma CompetingFromRanked(es: Entrants, i: nat)
    requires i < |es| && es[i].Some?
    ensures SortBy(Mapped(Ranked(es, i), EntryAt(es)), EntryOrder) == Competing(es, i)
  {
    MapKeepsMultiset(Ranked(es, i), Crowd(es, i), EntryAt(es));
    SortForgetsOrder(Mapped(Ranked(es, i), EntryAt(es)), Mapped(Crowd(es, i), EntryAt(es)), EntryOrder);
  }

  // What settling makes of the member ranked r.
  lemma MemberSettles(before: seq<Action>, es: Entrants, ranked: seq<nat>, i: nat, r: nat)
    requires IsRanked(before, es, ranked, i) && r < |ranked| && |ranked| != 1
    ensures |es| == |before| && ranked[r] < |before| && Contends(before[ranked[r]].op) && es[ranked[r]].Some?
    ensures RankedOk(before, i) <==> Suffixable(es[ranked[r]].value.wants.parts)
    ensures ConflictPass(before)[ranked[r]]
         == Ranking(before[ranked[r]], es[ranked[r]].value.wants.parts, r,
                    SortBy(Mapped(ranked, EntryAt(es)), EntryOrder))
  {
    RankedAtRank(es, i, r);
    RankedIs(es, i);
    CompetingFromRanked(es, i);
    assert Crowd(es, ranked[r]) == Crowd(es, i);
    hide Ranked, Crowd, Rank, Base, NameAt;
    assert Competing(es, ranked[r]) == Competing(es, i);
  }
}
