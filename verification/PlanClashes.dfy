/**
 Documents that a second canonicalization changes (src/core/plan.rs): one for each clash.
 */
module PlanClashes {
  import opened Basics
  import opened Order
  import opened Hex
  import opened Names
  import opened Permute
  import opened Contest
  import opened PlanDoc
  import opened PlanIdempotent

  function Component(name: seq<byte>): seq<Text> {
    [ToHex(name)]
  }

  lemma ComponentHex(name: seq<byte>)
    ensures IsHex(ToHex(name)) && Decode(ToHex(name)) == name
    ensures AllHex(Component(name)) && Suffixable(Component(name)) && Joined(Component(name)) == name
  {
    UnhexInvertsToHex(name);
  }

  function Entry(file: int, name: seq<byte>): SourceRef {
    SourceRef(0, file, Component(name), [], [], 0, None)
  }

  // One source root, one destination root, two actions.
  function TwoActions(first: Op, second: Op): Doc {
    var binding := SourceBinding([], [], 2, Dir, NoFingerprint);
    Doc(Organizing,
        [Root(0, SourceRole, [], ToHex([97]), Some(binding)), Root(1, DestinationRole, [], ToHex([98]), None)],
        [Action([], 0, first), Action([], 1, second)], [], [], Summary(0, [], 0, 0, 0, 0, []))
  }

  // The first action records a suffix its rivals have since given up; the second is called that already.
  function StalePlan(name: seq<byte>, n: nat): Doc {
    var dest := DestPath(1, Component(AddSuffix(name, n)), []);
    TwoActions(Move(dest, Entry(1, [120]), SuffixOrdinal(n, [])), Move(dest, Entry(2, [121]), NoConflict))
  }

  // One entry both moved and extracted to one destination.
  function TwinPlan(name: seq<byte>): Doc {
    var dest := DestPath(1, Component(name), []);
    TwoActions(Move(dest, Entry(1, [120]), NoConflict), Extract(dest, Entry(1, [120]), NoConflict))
  }

  lemma TwoActionsRoots(first: Op, second: Op)
    requires {first.dest.root, second.dest.root} <= {0, 1}
    requires Contends(first) && Contends(second) && first.source.root == 0 && second.source.root == 0
    ensures RootsOk(TwoActions(first, second))
  {
    var d := TwoActions(first, second);
    UnhexInvertsToHex([97]);
    UnhexInvertsToHex([98]);
    assert d.roots[0].rootId == 0 && d.roots[1].rootId == 1;
    assert HasRoot(d.roots, 0) && HasRoot(d.roots, 1);
    hide IsHex;
    assert d.roots[0].pathRaw == ToHex([97]) && d.roots[1].pathRaw == ToHex([98]);
  }

  // With two contenders a crowd holds one when they want different things, two when the same.
  lemma CrowdOfTwo(actions: seq<Action>, i: nat)
    requires |actions| == 2 && i < 2 && Contends(actions[0].op) && Contends(actions[1].op)
    ensures |Crowd(EntrantsOf(actions), i)| == if Rivals(EntrantsOf(actions), 0, 1) then 2 else 1
  {
    var es := EntrantsOf(actions);
    CrowdIs(es, i);
    assert |es| == 2 && es[0].Some? && es[1].Some?;
    var expected: seq<nat> := if Rivals(es, 0, 1) then [0, 1] else [i];
    hide Crowd;
    forall z: nat ensures z in Crowd(es, i) <==> z in expected {}
    AscendingUnique(Crowd(es, i), expected);
  }

  lemma HexStays(parts: seq<Text>, prior: Conflict, rank: nat)
    requires AllHex(parts)
    ensures AllHex(NameAt(Base(parts, prior), rank))
  {
    var base := Base(parts, prior);
    hide AddSuffix, StripSuffix, IsHex, ToHex, Decode;
    forall b: seq<byte> ensures IsHex(ToHex(b)) { UnhexInvertsToHex(b); }
    assert AllHex(base);
  }

  lemma SettledHex(actions: seq<Action>, i: nat)
    requires i < |actions| && OpHex(actions[i].op)
    ensures OpHex(Settled(actions, i).op)
  {
    var op := actions[i].op;
    if Contends(op) {
      HexStays(op.dest.parts, op.conflict, Rank(EntrantsOf(actions), i));
    }
    hide Crowd, Rank, Competing, NameAt, Base, IsHex;
  }

  ghost predicate Usable(op: Op) {
    && op.dest.root <= 1 && Contends(op) && op.source.root == 0
    && EntrantOk(op) && OpHex(op) && Suffixable(Base(op.dest.parts, op.conflict))
  }

  // Where only actions have to be shaped.
  lemma ActionsDecide(env: Env, d: Doc)
    requires RootsOk(d) && d.groups == [] && d.excluded == []
    requires var actions := RootPass(env, d).actions;
             forall i: nat :: i < |actions| ==>
               EntrantOk(actions[i].op) && SuffixesOk(actions, i) && OpHex(Settled(actions, i).op)
    ensures Canonicalize(env, d).Ok?
  {
    var r := RootPass(env, d);
    assert r.groups == [] && r.excluded == [];
    hide RootPass, RootsOk, EntrantOk, SuffixesOk, OpHex, Settled;
    assert ConflictsOk(r.actions);
    assert DisplayOk(r.(actions := ConflictPass(r.actions)));
  }

  lemma UsableSettles(env: Env, d: Doc, i: nat)
    requires i < |d.actions| && Usable(d.actions[i].op)
    ensures var actions := RootPass(env, d).actions;
            |actions| == |d.actions|
            && EntrantOk(actions[i].op) && SuffixesOk(actions, i) && OpHex(Settled(actions, i).op)
  {
    hide RootPass, AllHex, Suffixable, Base, BaseOk, Crowd;
    RemapAt(env, d, i);
    var actions := RootPass(env, d).actions;
    assert OpHex(actions[i].op);
    SettledHex(actions, i);
    hide Settled;
  }

  lemma TwoActionsAre(first: Op, second: Op)
    ensures var d := TwoActions(first, second);
            |d.actions| == 2 && d.actions[0].op == first && d.actions[1].op == second && d.groups == [] && d.excluded == []
  {
  }

  lemma UsableDecides(env: Env, d: Doc)
    requires RootsOk(d) && d.groups == [] && d.excluded == [] && forall i :: 0 <= i < |d.actions| ==> Usable(d.actions[i].op)
    ensures Canonicalize(env, d).Ok?
  {
    hide RootsOk, RootPass, Canonicalize, Usable, EntrantOk, SuffixesOk, OpHex, Settled;
    var actions := RootPass(env, d).actions;
    forall i: nat | i < |actions|
      ensures EntrantOk(actions[i].op) && SuffixesOk(actions, i) && OpHex(Settled(actions, i).op)
    {
      RootPassSize(env, d);
      UsableSettles(env, d, i);
    }
    ActionsDecide(env, d);
  }

  lemma RootPassSize(env: Env, d: Doc)
    ensures |RootPass(env, d).actions| == |d.actions|
  {
  }

  lemma TwoActionsCanonicalize(env: Env, first: Op, second: Op)
    requires Usable(first) && Usable(second)
    ensures Canonicalize(env, TwoActions(first, second)).Ok?
  {
    TwoActionsRoots(first, second);
    TwoActionsAre(first, second);
    hide TwoActions, RootsOk, Canonicalize, Usable;
    UsableDecides(env, TwoActions(first, second));
  }

  lemma StaleBase(name: seq<byte>, n: nat)
    requires n >= 1
    ensures var named := Component(AddSuffix(name, n));
            && BaseOk(named, SuffixOrdinal(n, [])) && Base(named, SuffixOrdinal(n, [])) == Component(name) != named
  {
    var named := Component(AddSuffix(name, n));
    ComponentHex(AddSuffix(name, n));
    ComponentHex(name);
    StripInvertsAdd(name, n);
    SuffixesDistinct(name, n, n);
    hide ToHex, AddSuffix, StripSuffix, Decode, IsHex;
    assert named[0] == ToHex(AddSuffix(name, n)) && Component(name)[0] == ToHex(name);
  }

  lemma StaleOps(name: seq<byte>, n: nat)
    requires n >= 1
    ensures var d := StalePlan(name, n); Usable(d.actions[0].op) && Usable(d.actions[1].op)
  {
    hide AddSuffix, Base, BaseOk, Component, AllHex, Suffixable, IsHex, Decode, ToHex, Joined;
    StaleBase(name, n);
    UnrecordedBase(Component(AddSuffix(name, n)));
    ComponentHex(AddSuffix(name, n));
    ComponentHex(name);
    ComponentHex([120]);
    ComponentHex([121]);
  }

  lemma StaleClashes(name: seq<byte>, n: nat)
    requires n >= 1
    ensures Clashing(StalePlan(name, n).actions, 0, 1)
  {
    var d := StalePlan(name, n);
    StaleBase(name, n);
    hide AddSuffix, BaseOk, Component, Crowd, Joined;
    CrowdOfTwo(d.actions, 0);
    CrowdOfTwo(d.actions, 1);
    hide Base;
  }

  // For every name and every suffix there is a plan the second pass changes.
  lemma StalePlanChanges(env: Env, name: seq<byte>, n: nat)
    requires n >= 1
    ensures Canonicalize(env, StalePlan(name, n)).Ok?
    ensures !Verified(env, Canonicalize(env, StalePlan(name, n)).value)
  {
    var d := StalePlan(name, n);
    StaleOps(name, n);
    StaleClashes(name, n);
    TwoActionsCanonicalize(env, d.actions[0].op, d.actions[1].op);
    assert d == TwoActions(d.actions[0].op, d.actions[1].op);
    hide StalePlan, TwoActions, Clashing, Usable, Canonicalize, Verified;
    IdempotentExactly(env, d);
  }

  lemma TwinOps(name: seq<byte>)
    ensures var d := TwinPlan(name);
            Usable(d.actions[0].op) && Usable(d.actions[1].op) && Twins(d.actions, 0, 1)
  {
    ComponentHex(name);
    ComponentHex([120]);
    hide Component, AllHex, Suffixable, Joined;
  }

  lemma TwinPlanChanges(env: Env, name: seq<byte>)
    ensures Canonicalize(env, TwinPlan(name)).Ok?
    ensures !Verified(env, Canonicalize(env, TwinPlan(name)).value)
  {
    var d := TwinPlan(name);
    TwinOps(name);
    TwoActionsCanonicalize(env, d.actions[0].op, d.actions[1].op);
    assert d == TwoActions(d.actions[0].op, d.actions[1].op);
    hide TwinPlan, TwoActions, Twins, Usable, Canonicalize, Verified;
    IdempotentExactly(env, d);
  }
}
