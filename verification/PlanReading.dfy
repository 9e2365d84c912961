/**
 The structural rules of a plan (src/core/plan.rs) spelled out: what a component, a hash and a
 path may be, read as pathname resolution reads them, and all the rules at once in the fields
 of the document.
 */
module PlanReading {
  import opened Basics
  import opened Order
  import opened Hex
  import opened Contest
  import opened PlanDoc
  import opened PlanRules
  import Resolve

  predicate LowerHex(t: Text) {
    forall c :: c in t ==> 48 <= c <= 57 || 97 <= c <= 102
  }

  // Hex of an even number of digits, naming one entry of a directory.
  lemma ComponentIsName(t: Text)
    ensures ComponentOk(t) <==>
              LowerHex(t) && |t| % 2 == 0 && 0 !in Bytes(t) && Resolve.RelativeParts(Bytes(t)) == [Resolve.Named(Bytes(t))]
  {
    var b := Bytes(t);
    if 47 !in b { Resolve.PartsOfSegment(b); } else { SlashedIsNoName(b); }
    hide Resolve.RelativeParts, Decode;
    assert IsHex(t) <==> LowerHex(t) && |t| % 2 == 0;
  }

  lemma SlashedIsNoName(b: seq<byte>)
    requires 47 in b
    ensures Resolve.RelativeParts(b) != [Resolve.Named(b)]
  {
    Resolve.RelativePartsLegal(b);
    assert !Resolve.LegalParts([Resolve.Named(b)]) by {
      assert Resolve.Named(b) in [Resolve.Named(b)] && !Resolve.LegalName(b);
    }
    hide Resolve.RelativeParts, Resolve.LegalParts;
  }

  function NamesOf(parts: seq<Text>): seq<Resolve.Part> {
    seq(|parts|, i requires 0 <= i < |parts| => Resolve.Named(Bytes(parts[i])))
  }

  lemma JoinedIs(parts: seq<Text>)
    requires parts != []
    ensures Joined(parts) == if |parts| == 1 then Bytes(parts[0]) else Bytes(parts[0]) + [47] + Joined(parts[1..])
  {
    hide Bytes;
  }

  lemma NamesOfIs(parts: seq<Text>)
    requires parts != []
    ensures NamesOf(parts) == [Resolve.Named(Bytes(parts[0]))] + NamesOf(parts[1..])
  {
    hide Bytes;
  }

  lemma PartsOkIs(parts: seq<Text>)
    requires parts != [] && PartsOk(parts)
    ensures ComponentOk(parts[0]) && PartsOk(parts[1..])
  {
    hide ComponentOk;
    assert forall i :: 0 <= i < |parts| - 1 ==> parts[1..][i] == parts[i + 1];
  }

  // An accepted path leads down through exactly its components: never up, out or back to the root.
  lemma {:induction false} PathLeadsDown(parts: seq<Text>)
    requires PartsOk(parts)
    ensures Resolve.RelativeParts(Joined(parts)) == NamesOf(parts)
    ensures Joined(parts) == [] || Joined(parts)[0] != 47
    decreases |parts|
  {
    hide *;
    if parts == [] {
      NoPath();
    } else {
      JoinedIs(parts);
      NamesOfIs(parts);
      PartsOkIs(parts);
      ComponentIsName(parts[0]);
      StartsWithName(parts[0]);
      if |parts| > 1 {
        PathLeadsDown(parts[1..]);
        Resolve.PartsOfJoined(Bytes(parts[0]), Joined(parts[1..]));
      } else {
        assert parts[1..] == [];
        NoPath();
      }
    }
  }

  lemma NoPath()
    ensures Resolve.RelativeParts(Joined([])) == NamesOf([]) == [] && Joined([]) == []
  {
  }

  lemma StartsWithName(t: Text)
    requires ComponentOk(t)
    ensures Bytes(t) != [] && Bytes(t)[0] != 47
  {
    assert Bytes(t)[0] in Bytes(t);
  }

  // ----- the rules at once

  ghost predicate RootFits(r: Root) {
    if r.role == SourceRole then
      r.source.Some? && match r.source.value.sourceType
        case Dir => r.source.value.fingerprint.NoFingerprint?
        case Tar => r.source.value.fingerprint.ArchiveBlake3?
    else r.source.None?
  }

  predicate ContentHash(h: Text) {
    |h| == 67 && h[0] == 98 && h[1] == 51 && h[2] == 58 && LowerHex(h[3..])
  }

  ghost predicate Named(parts: seq<Text>) {
    forall t :: t in parts ==>
      LowerHex(t) && |t| % 2 == 0 && 0 !in Bytes(t) && Resolve.RelativeParts(Bytes(t)) == [Resolve.Named(Bytes(t))]
  }

  ghost predicate RootListed(d: Doc, id: nat) {
    exists r :: r in d.roots && r.rootId == id
  }

  // The root an action reads from is, if it is bound to an index, of this type.
  ghost predicate ReadsOnly(d: Doc, id: nat, wanted: SourceType) {
    forall r :: r in d.roots && r.rootId == id && r.source.Some? ==> r.source.value.sourceType == wanted
  }

  // The first group with the action's id has the entry, and its first listing there is to be
  // quarantined and may be.
  ghost predicate Warranted(d: Doc, op: Op)
    requires op.Quarantine?
  {
    exists g, k ::
      && 0 <= g < |d.groups| && d.groups[g].groupId == op.groupId
      && (forall j :: 0 <= j < g ==> d.groups[j].groupId != op.groupId)
      && 0 <= k < |d.groups[g].members| && KeyOf(d.groups[g].members[k].entry) == KeyOf(op.source)
      && (forall j :: 0 <= j < k ==> KeyOf(d.groups[g].members[j].entry) != KeyOf(op.source))
      && d.groups[g].members[k].disposition == Quarantined && d.groups[g].members[k].actionable
  }

  ghost predicate Legal(d: Doc, op: Op) {
    && RootListed(d, op.dest.root) && Named(op.dest.parts)
    && match op
       case Mkdir(_) => true
       case Move(_, s, _) => d.kind == Organizing && RootListed(d, s.root) && Named(s.parts) && ContentHash(s.hash) && ReadsOnly(d, s.root, Dir)
       case Extract(_, s, _) => d.kind == Extracting && RootListed(d, s.root) && Named(s.parts) && ContentHash(s.hash) && ReadsOnly(d, s.root, Tar)
       case Quarantine(_, s, _, _) => d.kind == Deduping && RootListed(d, s.root) && Named(s.parts) && ContentHash(s.hash) && Warranted(d, op)
  }

  lemma {:induction false} FirstRootIs(roots: seq<Root>, id: nat)
    ensures FirstRoot(roots, id).Some? <==> exists r :: r in roots && r.rootId == id
    ensures FirstRoot(roots, id).Some? ==> FirstRoot(roots, id).value in roots && FirstRoot(roots, id).value.rootId == id
  {
    if roots != [] {
      assert roots == [roots[0]] + roots[1..];
      FirstRootIs(roots[1..], id);
    }
  }

  lemma {:induction false} FirstGroupAt(groups: seq<Group>, groupId: Text)
    ensures FirstGroup(groups, groupId).Some? <==> exists g :: 0 <= g < |groups| && groups[g].groupId == groupId
    ensures forall g :: 0 <= g < |groups| && groups[g].groupId == groupId && (forall j :: 0 <= j < g ==> groups[j].groupId != groupId)
              ==> FirstGroup(groups, groupId) == Some(groups[g])
    ensures FirstGroup(groups, groupId).Some? ==>
              exists g :: 0 <= g < |groups| && groups[g].groupId == groupId
                && (forall j :: 0 <= j < g ==> groups[j].groupId != groupId) && groups[g] == FirstGroup(groups, groupId).value
  {
    if groups != [] {
      var rest := groups[1..];
      FirstGroupAt(rest, groupId);
      assert forall j :: 0 <= j < |rest| ==> rest[j] == groups[j + 1];
      if groups[0].groupId != groupId {
        forall g | 0 <= g < |groups| && groups[g].groupId == groupId && (forall j :: 0 <= j < g ==> groups[j].groupId != groupId)
          ensures FirstGroup(groups, groupId) == Some(groups[g])
        {
          assert rest[g - 1] == groups[g];
        }
        if g :| 0 <= g < |rest| && rest[g].groupId == groupId
                && (forall j :: 0 <= j < g ==> rest[j].groupId != groupId) && Some(rest[g]) == FirstGroup(rest, groupId) {
          assert groups[g + 1] == rest[g];
          assert forall j :: 0 <= j < g + 1 ==> groups[j].groupId != groupId;
        }
      }
    }
  }

  lemma {:induction false} FirstMemberAt(members: seq<GroupMember>, key: EntryKey)
    ensures FirstMember(members, key).Some? <==> exists k :: 0 <= k < |members| && KeyOf(members[k].entry) == key
    ensures forall k :: 0 <= k < |members| && KeyOf(members[k].entry) == key && (forall j :: 0 <= j < k ==> KeyOf(members[j].entry) != key)
              ==> FirstMember(members, key) == Some(members[k])
    ensures FirstMember(members, key).Some? ==>
              exists k :: 0 <= k < |members| && KeyOf(members[k].entry) == key
                && (forall j :: 0 <= j < k ==> KeyOf(members[j].entry) != key) && members[k] == FirstMember(members, key).value
  {
    if members != [] {
      var rest := members[1..];
      FirstMemberAt(rest, key);
      assert forall j :: 0 <= j < |rest| ==> rest[j] == members[j + 1];
      if KeyOf(members[0].entry) != key {
        forall k | 0 <= k < |members| && KeyOf(members[k].entry) == key && (forall j :: 0 <= j < k ==> KeyOf(members[j].entry) != key)
          ensures FirstMember(members, key) == Some(members[k])
        {
          assert rest[k - 1] == members[k];
        }
        if k :| 0 <= k < |rest| && KeyOf(rest[k].entry) == key
                && (forall j :: 0 <= j < k ==> KeyOf(rest[j].entry) != key) && Some(rest[k]) == FirstMember(rest, key) {
          assert members[k + 1] == rest[k];
          assert forall j :: 0 <= j < k + 1 ==> KeyOf(members[j].entry) != key;
        }
      }
    }
  }

  lemma WarrantedIs(d: Doc, op: Op)
    requires op.Quarantine?
    ensures Backed(d.groups, op) <==> Warranted(d, op)
  {
    FirstGroupAt(d.groups, op.groupId);
    var g := FirstGroup(d.groups, op.groupId);
    if g.Some? { FirstMemberAt(g.value.members, KeyOf(op.source)); }
    hide FirstGroup, FirstMember, KeyOf;
  }

  lemma HashIs(h: Text)
    ensures HashOk(h) <==> ContentHash(h)
  {
    if |h| == 67 {
      assert h[..3] == [98, 51, 58] <==> h[0] == 98 && h[1] == 51 && h[2] == 58 by {
        if h[0] == 98 && h[1] == 51 && h[2] == 58 { assert h[..3] == [98, 51, 58]; }
        assert h[..3][0] == h[0] && h[..3][1] == h[1] && h[..3][2] == h[2];
      }
    }
  }

  lemma NamedIs(parts: seq<Text>)
    ensures PartsOk(parts) <==> Named(parts)
  {
    forall t ensures ComponentOk(t) <==>
      LowerHex(t) && |t| % 2 == 0 && 0 !in Bytes(t) && Resolve.RelativeParts(Bytes(t)) == [Resolve.Named(Bytes(t))]
    {
      ComponentIsName(t);
    }
    hide ComponentOk, LowerHex, Bytes;
    assert forall i :: 0 <= i < |parts| ==> parts[i] in parts;
  }

  lemma ListedIs(d: Doc, id: nat)
    ensures HasRoot(d.roots, id) <==> RootListed(d, id)
  {
    if HasRoot(d.roots, id) {
      var i :| 0 <= i < |d.roots| && d.roots[i].rootId == id;
      assert d.roots[i] in d.roots;
    }
  }

  lemma ReadsIs(d: Doc, id: nat, wanted: SourceType)
    requires IdsDistinct(d.roots) && RootListed(d, id)
    ensures ReadsFrom(d.roots, id, wanted) <==> ReadsOnly(d, id, wanted)
  {
    FirstRootIs(d.roots, id);
    var r := FirstRoot(d.roots, id).value;
    forall s | s in d.roots && s.rootId == id ensures s == r {
      var i :| 0 <= i < |d.roots| && d.roots[i] == s;
      var j :| 0 <= j < |d.roots| && d.roots[j] == r;
    }
    hide FirstRoot;
  }

  lemma LegalIs(d: Doc, op: Op)
    requires IdsDistinct(d.roots)
    ensures ActionOk(d, op) <==> Legal(d, op)
  {
    ListedIs(d, op.dest.root);
    NamedIs(op.dest.parts);
    if !op.Mkdir? {
      ListedIs(d, op.source.root);
      NamedIs(op.source.parts);
      HashIs(op.source.hash);
      if RootListed(d, op.source.root) {
        ReadsIs(d, op.source.root, Dir);
        ReadsIs(d, op.source.root, Tar);
      }
      if op.Quarantine? { WarrantedIs(d, op); }
    }
    hide HasRoot, RootListed, PartsOk, Named, HashOk, ContentHash, ReadsFrom, ReadsOnly, Backed, Warranted, IdsDistinct;
  }

  // No two actions read one entry or write one path.
  ghost predicate NoneShared(actions: seq<Action>) {
    forall i, j :: 0 <= i < j < |actions| && !actions[i].op.Mkdir? && !actions[j].op.Mkdir? ==>
      && (actions[i].op.source.root != actions[j].op.source.root || actions[i].op.source.file != actions[j].op.source.file)
      && (actions[i].op.dest.root != actions[j].op.dest.root
          || Joined(actions[i].op.dest.parts) != Joined(actions[j].op.dest.parts))
  }

  // No move writes a path that a move reads.
  ghost predicate NoneChained(actions: seq<Action>) {
    forall i, j :: 0 <= i < |actions| && 0 <= j < |actions| && actions[i].op.Move? && actions[j].op.Move? ==>
      actions[i].op.dest.root != actions[j].op.source.root
      || Joined(actions[i].op.dest.parts) != Joined(actions[j].op.source.parts)
  }

  lemma SharedIs(actions: seq<Action>)
    ensures Apart(actions) <==> NoneShared(actions)
  {
    hide Joined;
  }

  lemma ChainedIs(actions: seq<Action>)
    requires forall i :: 0 <= i < |actions| && !actions[i].op.Mkdir? ==> actions[i].op.Move?
    ensures OrderFree(actions) <==> NoneChained(actions)
  {
    hide Joined;
  }

  ghost predicate AllFit(d: Doc) {
    forall r :: r in d.roots ==> RootFits(r)
  }

  ghost predicate AllLegal(d: Doc) {
    forall a :: a in d.actions ==> Legal(d, a.op)
  }

  lemma AllFitIs(d: Doc)
    ensures AllFit(d) <==> forall i :: 0 <= i < |d.roots| ==> RootOk(d.roots[i])
  {
    forall r: Root ensures RootOk(r) <==> RootFits(r) {}
    hide RootOk, RootFits;
    assert forall i :: 0 <= i < |d.roots| ==> d.roots[i] in d.roots;
  }

  lemma AllLegalIs(d: Doc)
    requires IdsDistinct(d.roots)
    ensures AllLegal(d) <==> forall i :: 0 <= i < |d.actions| ==> ActionOk(d, d.actions[i].op)
  {
    forall a | a in d.actions ensures ActionOk(d, a.op) <==> Legal(d, a.op) { LegalIs(d, a.op); }
    hide ActionOk, Legal, IdsDistinct;
    assert forall i :: 0 <= i < |d.actions| ==> d.actions[i] in d.actions;
  }

  lemma OnlyMoves(d: Doc)
    requires d.kind == Organizing && AllLegal(d)
    ensures forall i :: 0 <= i < |d.actions| && !d.actions[i].op.Mkdir? ==> d.actions[i].op.Move?
  {
    hide Named, ContentHash, Warranted, ReadsOnly, RootListed;
    assert forall i :: 0 <= i < |d.actions| ==> d.actions[i] in d.actions;
  }

  lemma AllFloorsHeld(groups: seq<Group>)
    ensures (forall i :: 0 <= i < |groups| ==> groups[i].floor.remainingAfter >= groups[i].floor.required)
       <==> forall g :: g in groups ==> g.floor.remainingAfter >= g.floor.required
  {
    assert forall i :: 0 <= i < |groups| ==> groups[i] in groups;
  }

  // What the structural rules accept, all in one place: no two roots have one path and each is
  // bound as its role asks; every action is legal for the kind of plan; none share a source
  // entry or a destination; no organize move writes a path that is read; only dedup plans have
  // groups, and each keeps its floor.
  lemma RulesRead(d: Doc)
    requires IdsDistinct(d.roots)
    ensures Acceptable(d) <==>
              && (forall i, j :: 0 <= i < j < |d.roots| ==> d.roots[i].pathRaw != d.roots[j].pathRaw)
              && AllFit(d) && AllLegal(d) && NoneShared(d.actions)
              && (d.kind == Organizing ==> NoneChained(d.actions))
              && (d.groups != [] ==> d.kind == Deduping)
              && (forall g :: g in d.groups ==> g.floor.remainingAfter >= g.floor.required)
  {
    AllFitIs(d);
    AllLegalIs(d);
    SharedIs(d.actions);
    if d.kind == Organizing && AllLegal(d) {
      OnlyMoves(d);
      ChainedIs(d.actions);
    }
    hide AllFit, AllLegal, NoneShared, NoneChained, Apart, OrderFree, ActionOk, RootOk, IdsDistinct;
    AllFloorsHeld(d.groups);
  }
}
