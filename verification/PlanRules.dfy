/**
 The structural rules of a plan (src/core/plan.rs), checked by one pass that fills sets of
 what it has seen. The rules are stated without an order; the pass decides them.
 */
module PlanRules {
  import opened Basics
  import opened Order
  import opened Hex
  import opened Contest
  import opened PlanDoc

  // A decoded component: not empty, not `.` or `..`, holding no slash and no NUL.
  predicate ComponentOk(t: Text) {
    IsHex(t) && var b := Bytes(t); b != [] && b != [46] && b != [46, 46] && SLASH !in b && 0 !in b
  }

  predicate PartsOk(parts: seq<Text>) {
    forall i :: 0 <= i < |parts| ==> ComponentOk(parts[i])
  }

  // "b3:" and 64 lowercase hex digits.
  predicate HashOk(hash: Text) {
    |hash| == 67 && hash[..3] == [98, 51, 58] && IsHex(hash[3..])
  }

  predicate RootOk(r: Root) {
    && (r.role == SourceRole <==> r.source.Some?)
    && (r.source.Some? ==> (r.source.value.sourceType == Dir ==> r.source.value.fingerprint.NoFingerprint?)
                           && (r.source.value.sourceType == Tar ==> r.source.value.fingerprint.ArchiveBlake3?))
  }

  predicate KindOk(kind: PlanKind, op: Op) {
    op.Mkdir? || match kind
      case Organizing => op.Move?
      case Extracting => op.Extract?
      case Deduping => op.Quarantine?
  }

  function FirstRoot(roots: seq<Root>, id: nat): Option<Root> {
    if roots == [] then None else if roots[0].rootId == id then Some(roots[0]) else FirstRoot(roots[1..], id)
  }

  function FirstGroup(groups: seq<Group>, groupId: Text): Option<Group> {
    if groups == [] then None else if groups[0].groupId == groupId then Some(groups[0]) else FirstGroup(groups[1..], groupId)
  }

  function FirstMember(members: seq<GroupMember>, key: EntryKey): Option<GroupMember> {
    if members == [] then None
    else if KeyOf(members[0].entry) == key then Some(members[0])
    else FirstMember(members[1..], key)
  }

  // The source root, where it has a binding, is of the type the operation reads from.
  predicate ReadsFrom(roots: seq<Root>, id: nat, wanted: SourceType) {
    var r := FirstRoot(roots, id);
    r.Some? && (r.value.source.Some? ==> r.value.source.value.sourceType == wanted)
  }

  // A quarantined file is an actionable member of its group, marked for quarantine.
  predicate Backed(groups: seq<Group>, op: Op)
    requires op.Quarantine?
  {
    var g := FirstGroup(groups, op.groupId);
    g.Some? && var m := FirstMember(g.value.members, KeyOf(op.source));
    m.Some? && m.value.disposition == Quarantined && m.value.actionable
  }

  // What an action must satisfy on its own.
  predicate ActionOk(d: Doc, op: Op) {
    && OpKnown(d.roots, op) && KindOk(d.kind, op) && PartsOk(op.dest.parts)
    && (!op.Mkdir? ==> PartsOk(op.source.parts) && HashOk(op.source.hash))
    && (op.Extract? ==> ReadsFrom(d.roots, op.source.root, Tar))
    && (op.Move? ==> ReadsFrom(d.roots, op.source.root, Dir))
    && (op.Quarantine? ==> Backed(d.groups, op))
  }

  datatype Place = Place(root: nat, path: seq<byte>)

  function Target(op: Op): Place {
    Place(op.dest.root, Joined(op.dest.parts))
  }

  function Origin(op: Op): Place
    requires !op.Mkdir?
  {
    Place(op.source.root, Joined(op.source.parts))
  }

  // No two actions share a destination or read one entry.
  ghost predicate Apart(actions: seq<Action>) {
    forall i, j :: 0 <= i < j < |actions| && !actions[i].op.Mkdir? && !actions[j].op.Mkdir? ==>
      Target(actions[i].op) != Target(actions[j].op) && KeyOf(actions[i].op.source) != KeyOf(actions[j].op.source)
  }

  // No destination is a path some action reads.
  ghost predicate OrderFree(actions: seq<Action>) {
    forall i, j :: 0 <= i < |actions| && 0 <= j < |actions| && actions[i].op.Move? && !actions[j].op.Mkdir? ==>
      Target(actions[i].op) != Origin(actions[j].op)
  }

  ghost predicate PathsDistinct(roots: seq<Root>) {
    forall i, j :: 0 <= i < j < |roots| ==> roots[i].pathRaw != roots[j].pathRaw
  }

  ghost predicate Acceptable(d: Doc) {
    && PathsDistinct(d.roots) && (forall i :: 0 <= i < |d.roots| ==> RootOk(d.roots[i]))
    && (d.kind == Deduping || d.groups == [])
    && (forall i :: 0 <= i < |d.actions| ==> ActionOk(d, d.actions[i].op))
    && Apart(d.actions)
    && (d.kind == Organizing ==> OrderFree(d.actions))
    && (forall i :: 0 <= i < |d.groups| ==> d.groups[i].floor.remainingAfter >= d.groups[i].floor.required)
  }

  // ----- the pass

  method RootsHold(roots: seq<Root>) returns (ok: bool)
    ensures ok <==> PathsDistinct(roots) && forall i :: 0 <= i < |roots| ==> RootOk(roots[i])
  {
    var seen: set<Text> := {};
    for i := 0 to |roots|
      invariant PathsDistinct(roots[..i]) && forall k :: 0 <= k < i ==> RootOk(roots[k])
      invariant forall t :: t in seen <==> exists k :: 0 <= k < i && roots[k].pathRaw == t
    {
      if roots[i].pathRaw in seen || !RootOk(roots[i]) { return false; }
      seen := seen + {roots[i].pathRaw};
    }
    assert roots[..|roots|] == roots;
    return true;
  }

  // The walk over the actions; the places they read are collected for an organize plan.
  method ActionsHold(d: Doc) returns (ok: bool, origins: set<Place>)
    ensures ok <==> Apart(d.actions) && forall i :: 0 <= i < |d.actions| ==> ActionOk(d, d.actions[i].op)
    ensures ok ==> forall x :: x in origins <==> d.kind == Organizing && TakenBy(d.actions, |d.actions|, x)
  {
    hide ActionOk, Apart, Joined;
    var sources: set<EntryKey>, targets: set<Place> := {}, {};
    origins := {};
    assert Apart(d.actions[..0]) by { ApartEmpty(d.actions); }
    for i := 0 to |d.actions|
      invariant forall k :: 0 <= k < i ==> ActionOk(d, d.actions[k].op)
      invariant Apart(d.actions[..i])
      invariant forall x :: x in sources <==> ReadBy(d.actions, i, x)
      invariant forall x :: x in targets <==> WrittenBy(d.actions, i, x)
      invariant forall x :: x in origins <==> d.kind == Organizing && TakenBy(d.actions, i, x)
    {
      var op := d.actions[i].op;
      ApartNext(d.actions, i);
      if !ActionOk(d, op) { return false, {}; }
      if !op.Mkdir? {
        if Target(op) in targets || KeyOf(op.source) in sources { return false, {}; }
        targets, sources := targets + {Target(op)}, sources + {KeyOf(op.source)};
        if d.kind == Organizing { origins := origins + {Origin(op)}; }
      }
    }
    assert d.actions[..|d.actions|] == d.actions;
    return true, origins;
  }

  lemma ApartEmpty(actions: seq<Action>)
    ensures Apart(actions[..0])
  {
  }

  method TargetsAvoid(actions: seq<Action>, origins: set<Place>) returns (ok: bool)
    requires forall x :: x in origins <==> TakenBy(actions, |actions|, x)
    ensures ok <==> OrderFree(actions)
  {
    hide Joined;
    for i := 0 to |actions|
      invariant forall k :: 0 <= k < i && actions[k].op.Move? ==> Target(actions[k].op) !in origins
    {
      if actions[i].op.Move? && Target(actions[i].op) in origins { return false; }
    }
    return true;
  }

  method FloorsHold(groups: seq<Group>) returns (ok: bool)
    ensures ok <==> forall i :: 0 <= i < |groups| ==> groups[i].floor.remainingAfter >= groups[i].floor.required
  {
    for i := 0 to |groups|
      invariant forall k :: 0 <= k < i ==> groups[k].floor.remainingAfter >= groups[k].floor.required
    {
      if groups[i].floor.remainingAfter < groups[i].floor.required { return false; }
    }
    return true;
  }

  method InvariantsHold(d: Doc) returns (ok: bool)
    ensures ok <==> Acceptable(d)
  {
    hide ActionOk, Apart, OrderFree, PathsDistinct;
    ok := RootsHold(d.roots);
    if !ok { return; }
    if d.kind != Deduping && d.groups != [] { return false; }
    var origins;
    ok, origins := ActionsHold(d);
    if !ok { return; }
    if d.kind == Organizing {
      ok := TargetsAvoid(d.actions, origins);
      if !ok { return; }
    }
    ok := FloorsHold(d.groups);
  }

  ghost predicate ReadBy(actions: seq<Action>, n: nat, x: EntryKey)
    requires n <= |actions|
  {
    exists k :: 0 <= k < n && !actions[k].op.Mkdir? && KeyOf(actions[k].op.source) == x
  }

  ghost predicate WrittenBy(actions: seq<Action>, n: nat, x: Place)
    requires n <= |actions|
  {
    exists k :: 0 <= k < n && !actions[k].op.Mkdir? && Target(actions[k].op) == x
  }

  ghost predicate TakenBy(actions: seq<Action>, n: nat, x: Place)
    requires n <= |actions|
  {
    exists k :: 0 <= k < n && !actions[k].op.Mkdir? && Origin(actions[k].op) == x
  }

  lemma ApartNext(actions: seq<Action>, i: nat)
    requires i < |actions|
    ensures Apart(actions[..i + 1]) <==>
      Apart(actions[..i]) && (!actions[i].op.Mkdir? ==>
        !WrittenBy(actions, i, Target(actions[i].op)) && !ReadBy(actions, i, KeyOf(actions[i].op.source)))
    ensures !Apart(actions[..i + 1]) ==> !Apart(actions)
  {
    hide Joined;
    var s := actions[..i + 1];
    assert forall k :: 0 <= k < i ==> s[k] == actions[..i][k];
  }
}
