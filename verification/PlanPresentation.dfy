/**
 The canonical plan does not depend on how the document was handed in (src/core/plan.rs):
 not on the order of any list, not on the root ids its builder chose, and not on what its
 derived fields held.
 */
module PlanPresentation {
  import opened Basics
  import opened Order
  import opened Hex
  import opened Permute
  import opened Contest
  import opened PlanDoc
  import opened PlanStable

  // ----- the primitive facts of a document, under a renaming of its root ids

  function Same(id: nat): nat {
    id
  }

  function BareRoot(rename: nat -> nat): Root -> Root {
    (r: Root) => r.(rootId := rename(r.rootId), pathDisplay := [])
  }

  function BareSource(rename: nat -> nat, s: SourceRef): SourceRef {
    s.(root := rename(s.root), display := [])
  }

  function BareDest(rename: nat -> nat, d: DestPath): DestPath {
    d.(root := rename(d.root), display := [])
  }

  // Of a conflict note only the recorded suffix is ever read.
  function BareConflict(c: Conflict): Conflict {
    if PriorOrdinal(c) == 0 then NoConflict else SuffixOrdinal(PriorOrdinal(c), [])
  }

  function BareOp(rename: nat -> nat, op: Op): Op {
    match op
    case Mkdir(d) => Mkdir(BareDest(rename, d))
    case Move(d, s, c) => Move(BareDest(rename, d), BareSource(rename, s), BareConflict(c))
    case Extract(d, s, c) => Extract(BareDest(rename, d), BareSource(rename, s), BareConflict(c))
    case Quarantine(d, s, g, _) => Quarantine(BareDest(rename, d), BareSource(rename, s), g, [])
  }

  function BareAction(rename: nat -> nat): Action -> Action {
    (a: Action) => Action([], 0, BareOp(rename, a.op))
  }

  function BareMember(rename: nat -> nat): GroupMember -> GroupMember {
    (m: GroupMember) => m.(entry := BareSource(rename, m.entry))
  }

  datatype GroupFacts = GroupFacts(matchKind: MatchKind, maxDistance: nat, keeper: SourceRef, keepReason: Text,
                                   members: multiset<GroupMember>, required: nat, observed: nat, reclaimable: nat,
                                   reviewOnly: nat)

  function FactsOf(rename: nat -> nat): Group -> GroupFacts {
    (g: Group) => GroupFacts(g.matchKind, g.maxDistance, BareSource(rename, g.keeper), g.keepReason,
                             multiset(Mapped(g.members, BareMember(rename))), g.floor.required, g.floor.observed,
                             g.reclaimable, g.reviewOnly)
  }

  function BareExcluded(rename: nat -> nat): Excluded -> Excluded {
    (e: Excluded) => e.(root := rename(e.root), display := [])
  }

  // q presents the facts of p in another order and under other root ids.
  ghost predicate SameFacts(p: Doc, q: Doc, rename: nat -> nat) {
    && p.kind == q.kind
    && multiset(Mapped(p.roots, BareRoot(rename))) == multiset(Mapped(q.roots, BareRoot(Same)))
    && multiset(Mapped(p.actions, BareAction(rename))) == multiset(Mapped(q.actions, BareAction(Same)))
    && multiset(Mapped(p.groups, FactsOf(rename))) == multiset(Mapped(q.groups, FactsOf(Same)))
    && multiset(Mapped(p.excluded, BareExcluded(rename))) == multiset(Mapped(q.excluded, BareExcluded(Same)))
  }

  ghost predicate Injective(rename: nat -> nat) {
    forall x, y :: rename(x) == rename(y) ==> x == y
  }

  // ----- what the result rests on

  predicate LegalParts(parts: seq<Text>) {
    parts != [] && AllHex(parts)
    && forall i :: 0 <= i < |parts| ==> Bytes(parts[i]) != [] && SLASH !in Bytes(parts[i])
  }

  ghost predicate SourcesDistinct(actions: seq<Action>) {
    forall i, j :: 0 <= i < j < |actions| && !actions[i].op.Mkdir? && !actions[j].op.Mkdir? ==>
      KeyOf(actions[i].op.source) != KeyOf(actions[j].op.source)
  }

  ghost predicate MkdirsLegal(actions: seq<Action>) {
    forall i :: 0 <= i < |actions| && actions[i].op.Mkdir? ==> LegalParts(actions[i].op.dest.parts)
  }

  ghost predicate WellKeyed(p: Doc) {
    && KeysDistinct(p.roots, RootKey)
    && SourcesDistinct(p.actions) && MkdirsLegal(p.actions)
    && KeysDistinct(p.groups, KeeperKey)
    && (forall i :: 0 <= i < |p.groups| ==> KeysDistinct(p.groups[i].members, MemberKey))
    && KeysDistinct(p.excluded, ExcludedKey)
  }

  // ----- roots

  lemma SameRoots(p: Doc, q: Doc, rename: nat -> nat)
    requires SameFacts(p, q, rename) && KeysDistinct(p.roots, RootKey)
    ensures Mapped(SortedRoots(p.roots), BareRoot(rename)) == Mapped(SortedRoots(q.roots), BareRoot(Same))
  {
    SortedFaces(p.roots, BareRoot(rename), q.roots, BareRoot(Same), RootKey, RootKey);
  }

  lemma SameRenumbered(env: Env, s: seq<Root>, t: seq<Root>, rename: nat -> nat)
    requires Mapped(s, BareRoot(rename)) == Mapped(t, BareRoot(Same))
    ensures Renumbered(env, s) == Renumbered(env, t)
    ensures |s| == |t| && forall i :: 0 <= i < |s| ==> t[i].rootId == rename(s[i].rootId)
  {
    assert |Mapped(s, BareRoot(rename))| == |Mapped(t, BareRoot(Same))|;
    forall i | 0 <= i < |s|
      ensures t[i].rootId == rename(s[i].rootId) && Renumbered(env, s)[i] == Renumbered(env, t)[i]
    {
      assert Mapped(s, BareRoot(rename))[i] == Mapped(t, BareRoot(Same))[i];
    }
  }

  // A known id and its new name are renumbered alike; unknown ids stay unknown.
  lemma {:induction false} SameNewId(s: seq<Root>, t: seq<Root>, rename: nat -> nat, id: nat)
    requires |s| == |t| && forall i :: 0 <= i < |s| ==> t[i].rootId == rename(s[i].rootId)
    requires Injective(rename)
    ensures HasRoot(s, id) <==> HasRoot(t, rename(id))
    ensures HasRoot(s, id) ==> NewId(s, id) == NewId(t, rename(id))
  {
    if s != [] {
      var n := |s| - 1;
      SameNewId(s[..n], t[..n], rename, id);
      assert HasRoot(s, id) <==> HasRoot(s[..n], id) || s[n].rootId == id by { HasRootSnoc(s, id); }
      assert HasRoot(t, rename(id)) <==> HasRoot(t[..n], rename(id)) || t[n].rootId == rename(id) by {
        HasRootSnoc(t, rename(id));
      }
    }
  }

  lemma HasRootSnoc(s: seq<Root>, id: nat)
    requires s != []
    ensures HasRoot(s, id) <==> HasRoot(s[..|s| - 1], id) || s[|s| - 1].rootId == id
  {
    var n := |s| - 1;
    if HasRoot(s, id) {
      var i :| 0 <= i < |s| && s[i].rootId == id;
      if i < n { assert s[..n][i].rootId == id; }
    }
    if HasRoot(s[..n], id) {
      var i :| 0 <= i < n && s[..n][i].rootId == id;
      assert s[i].rootId == id;
    }
  }

  lemma HasRootSorted(roots: seq<Root>, id: nat)
    ensures HasRoot(SortedRoots(roots), id) <==> HasRoot(roots, id)
  {
    var s := SortedRoots(roots);
    SortByElements(roots, RootKey);
    if HasRoot(roots, id) {
      var i :| 0 <= i < |roots| && roots[i].rootId == id;
      assert roots[i] in s;
    }
    if HasRoot(s, id) {
      var i :| 0 <= i < |s| && s[i].rootId == id;
      assert s[i] in roots;
    }
  }

  // The two documents' roots, put in order, tell ids apart in the same way.
  ghost predicate SameIds(p: Doc, q: Doc, rename: nat -> nat) {
    forall id: nat ::
      && (HasRoot(p.roots, id) <==> HasRoot(q.roots, rename(id)))
      && (HasRoot(p.roots, id) ==> NewId(SortedRoots(p.roots), id) == NewId(SortedRoots(q.roots), rename(id)))
  }

  lemma FactsGiveIds(env: Env, p: Doc, q: Doc, rename: nat -> nat)
    requires SameFacts(p, q, rename) && KeysDistinct(p.roots, RootKey) && Injective(rename)
    ensures SameIds(p, q, rename) && RootPass(env, p).roots == RootPass(env, q).roots
  {
    var s, t := SortedRoots(p.roots), SortedRoots(q.roots);
    SameRoots(p, q, rename);
    SameRenumbered(env, s, t, rename);
    forall id: nat
      ensures HasRoot(p.roots, id) <==> HasRoot(q.roots, rename(id))
      ensures HasRoot(p.roots, id) ==> NewId(s, id) == NewId(t, rename(id))
    {
      HasRootSorted(p.roots, id);
      HasRootSorted(q.roots, rename(id));
      SameNewId(s, t, rename, id);
    }
  }

  // ----- item by item

  // Position k of q holds what position order[k] of p holds.
  ghost predicate Along<T, U>(s: seq<T>, f: T -> U, t: seq<T>, g: T -> U, order: seq<nat>) {
    && |t| == |s| && Rearranges(order, |s|)
    && forall k :: 0 <= k < |t| ==> g(t[k]) == f(s[order[k]])
  }

  lemma FindAlong<T, U>(s: seq<T>, f: T -> U, t: seq<T>, g: T -> U) returns (order: seq<nat>)
    requires multiset(Mapped(s, f)) == multiset(Mapped(t, g))
    ensures Along(s, f, t, g, order)
  {
    order := FindRearrangement(Mapped(s, f), Mapped(t, g));
    assert |Mapped(t, g)| == |t|;
    forall k | 0 <= k < |t| ensures g(t[k]) == f(s[order[k]]) {
      assert Mapped(t, g)[k] == Mapped(s, f)[order[k]];
    }
  }

  // Names in `roots` for the ids of another document.
  ghost predicate Named(d: Doc, roots: seq<Root>, rename: nat -> nat) {
    forall id: nat :: HasRoot(d.roots, id) <==> HasRoot(roots, rename(id))
  }

  ghost predicate FactsKnown(roots: seq<Root>, g: GroupFacts) {
    HasRoot(roots, g.keeper.root) && forall m :: m in g.members ==> HasRoot(roots, m.entry.root)
  }

  lemma KnownByActions(d: Doc, roots: seq<Root>, rename: nat -> nat)
    requires Named(d, roots, rename)
    ensures (forall i :: 0 <= i < |d.actions| ==> OpKnown(d.roots, d.actions[i].op))
       <==> (forall x :: x in multiset(Mapped(d.actions, BareAction(rename))) ==> OpKnown(roots, x.op))
  {
    var faces := Mapped(d.actions, BareAction(rename));
    hide HasRoot;
    assert |faces| == |d.actions|;
    forall i | 0 <= i < |faces| ensures OpKnown(roots, faces[i].op) <==> OpKnown(d.roots, d.actions[i].op) {}
    hide OpKnown, Mapped, BareAction, Named;
    assert forall i :: 0 <= i < |faces| ==> faces[i] in multiset(faces);
    assert forall x :: x in multiset(faces) ==> x in faces;
  }

  lemma FaceKnown(d: Doc, roots: seq<Root>, rename: nat -> nat, g: Group)
    requires Named(d, roots, rename)
    ensures GroupKnown(d.roots, g) <==> FactsKnown(roots, FactsOf(rename)(g))
  {
    var faces := Mapped(g.members, BareMember(rename));
    hide HasRoot;
    assert |faces| == |g.members|;
    forall k | 0 <= k < |faces|
      ensures HasRoot(roots, faces[k].entry.root) <==> HasRoot(d.roots, g.members[k].entry.root) {}
    hide Mapped, BareMember;
    assert forall i :: 0 <= i < |faces| ==> faces[i] in multiset(faces);
    assert forall x :: x in multiset(faces) ==> x in faces;
  }

  lemma KnownByGroups(d: Doc, roots: seq<Root>, rename: nat -> nat)
    requires Named(d, roots, rename)
    ensures (forall i :: 0 <= i < |d.groups| ==> GroupKnown(d.roots, d.groups[i]))
       <==> (forall x :: x in multiset(Mapped(d.groups, FactsOf(rename))) ==> FactsKnown(roots, x))
  {
    hide FactsKnown, GroupKnown, FactsOf, Named;
    var faces := Mapped(d.groups, FactsOf(rename));
    assert |faces| == |d.groups|;
    forall i | 0 <= i < |faces| ensures FactsKnown(roots, faces[i]) <==> GroupKnown(d.roots, d.groups[i]) {
      FaceKnown(d, roots, rename, d.groups[i]);
    }
    hide Mapped;
    if forall i :: 0 <= i < |d.groups| ==> GroupKnown(d.roots, d.groups[i]) {
      assert forall x :: x in multiset(faces) ==> x in faces;
    }
    assert forall i :: 0 <= i < |faces| ==> faces[i] in multiset(faces);
  }

  lemma KnownByExcluded(d: Doc, roots: seq<Root>, rename: nat -> nat)
    requires Named(d, roots, rename)
    ensures (forall i :: 0 <= i < |d.excluded| ==> HasRoot(d.roots, d.excluded[i].root))
       <==> (forall x :: x in multiset(Mapped(d.excluded, BareExcluded(rename))) ==> HasRoot(roots, x.root))
  {
    var faces := Mapped(d.excluded, BareExcluded(rename));
    hide HasRoot;
    assert |faces| == |d.excluded|;
    forall i | 0 <= i < |faces| ensures HasRoot(roots, faces[i].root) <==> HasRoot(d.roots, d.excluded[i].root) {}
    hide Mapped, BareExcluded, Named;
    assert forall i :: 0 <= i < |faces| ==> faces[i] in multiset(faces);
    assert forall x :: x in multiset(faces) ==> x in faces;
  }

  lemma SameRefsKnown(p: Doc, q: Doc, rename: nat -> nat)
    requires SameFacts(p, q, rename) && Named(p, q.roots, rename)
    ensures RefsKnown(p) <==> RefsKnown(q)
  {
    assert Named(q, q.roots, Same);
    hide Named, HasRoot, OpKnown, GroupKnown, FactsKnown, Mapped;
    KnownByActions(p, q.roots, rename);
    KnownByActions(q, q.roots, Same);
    KnownByGroups(p, q.roots, rename);
    KnownByGroups(q, q.roots, Same);
    KnownByExcluded(p, q.roots, rename);
    KnownByExcluded(q, q.roots, Same);
  }

  lemma HexByRoots(roots: seq<Root>, rename: nat -> nat)
    ensures RootsHex(roots) <==> forall x :: x in multiset(Mapped(roots, BareRoot(rename))) ==> IsHex(x.pathRaw)
  {
    var faces := Mapped(roots, BareRoot(rename));
    hide IsHex;
    assert |faces| == |roots|;
    forall i | 0 <= i < |faces| ensures IsHex(faces[i].pathRaw) <==> IsHex(roots[i].pathRaw) {}
    hide Mapped, BareRoot;
    assert forall i :: 0 <= i < |faces| ==> faces[i] in multiset(faces);
    assert forall x :: x in multiset(faces) ==> x in faces;
  }

  lemma SameRootChecks(p: Doc, q: Doc, rename: nat -> nat)
    requires SameFacts(p, q, rename) && Injective(rename)
    ensures IdsDistinct(p.roots) <==> IdsDistinct(q.roots)
    ensures RootsHex(p.roots) <==> RootsHex(q.roots)
  {
    hide IsHex, RootsHex, Mapped, BareRoot, Along;
    HexByRoots(p.roots, rename);
    HexByRoots(q.roots, Same);
    var order := FindAlong(p.roots, BareRoot(rename), q.roots, BareRoot(Same));
    AlongIds(p.roots, q.roots, rename, order);
    SameDistinct(p.roots, q.roots, rename, order);
  }

  lemma AlongIds(s: seq<Root>, t: seq<Root>, rename: nat -> nat, order: seq<nat>)
    requires Along(s, BareRoot(rename), t, BareRoot(Same), order)
    ensures Rearranges(order, |s|) && |t| == |s|
    ensures forall k :: 0 <= k < |t| ==> t[k].rootId == rename(s[order[k]].rootId)
  {
    forall k | 0 <= k < |t| ensures t[k].rootId == rename(s[order[k]].rootId) {
      assert BareRoot(Same)(t[k]) == BareRoot(rename)(s[order[k]]);
      assert BareRoot(Same)(t[k]).rootId == Same(t[k].rootId);
    }
  }

  lemma SameDistinct(s: seq<Root>, t: seq<Root>, rename: nat -> nat, order: seq<nat>)
    requires Rearranges(order, |s|) && |t| == |s| && Injective(rename)
    requires forall k :: 0 <= k < |t| ==> t[k].rootId == rename(s[order[k]].rootId)
    ensures IdsDistinct(s) <==> IdsDistinct(t)
  {
    RearrangesOnto(order, |s|);
    if IdsDistinct(s) {
      forall i, j | 0 <= i < j < |t| ensures t[i].rootId != t[j].rootId {
        assert s[order[i]].rootId != s[order[j]].rootId;
      }
    }
    if IdsDistinct(t) {
      forall i: nat, j: nat | i < j < |s| ensures s[i].rootId != s[j].rootId {
        assert i in order && j in order;
        var x :| 0 <= x < |order| && order[x] == i;
        var y :| 0 <= y < |order| && order[y] == j;
        assert t[x].rootId != t[y].rootId;
      }
    }
  }

  lemma SameRootsOk(p: Doc, q: Doc, rename: nat -> nat)
    requires SameFacts(p, q, rename) && SameIds(p, q, rename) && Injective(rename)
    ensures RootsOk(p) <==> RootsOk(q)
  {
    assert Named(p, q.roots, rename);
    SameRefsKnown(p, q, rename);
    SameRootChecks(p, q, rename);
    hide SameFacts, SameIds, Named, RefsKnown, IdsDistinct, RootsHex;
  }
}
