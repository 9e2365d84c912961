/**
 What carrying out an accepted plan does (src/core/plan.rs): its moves and quarantines, in any
 order, on a file system that is a map from places to contents. Places under different roots
 are different.
 */
module Execute {
  import opened Basics
  import opened Order
  import opened Hex
  import opened Permute
  import opened Contest
  import opened PlanDoc
  import opened PlanStable
  import opened PlanOrderFree
  import opened PlanRules

  type Files = map<Place, Text>

  datatype Step = Step(origin: Place, target: Place)

  // Moves and quarantines take a file from one place to another.
  predicate Relocates(op: Op) {
    op.Move? || op.Quarantine?
  }

  function MoveSteps(actions: seq<Action>): seq<Step> {
    if actions == [] then []
    else
      var op := actions[|actions| - 1].op;
      MoveSteps(actions[..|actions| - 1]) + if Relocates(op) then [Step(Origin(op), Target(op))] else []
  }

  // None when a step would find nothing to move or something in its way.
  function Run(fs: Files, steps: seq<Step>): Option<Files>
    decreases |steps|
  {
    if steps == [] then Some(fs)
    else
      var s := steps[0];
      if s.origin in fs && s.target !in fs
      then Run((fs - {s.origin})[s.target := fs[s.origin]], steps[1..])
      else None
  }

  function Origins(steps: seq<Step>): set<Place> {
    set s | s in steps :: s.origin
  }

  function Targets(steps: seq<Step>): set<Place> {
    set s | s in steps :: s.target
  }

  ghost predicate Ready(fs: Files, steps: seq<Step>) {
    Origins(steps) <= fs.Keys && Targets(steps) !! fs.Keys
  }

  ghost predicate StepsDiffer(steps: seq<Step>) {
    forall i, j :: 0 <= i < j < |steps| ==> steps[i].origin != steps[j].origin && steps[i].target != steps[j].target
  }

  ghost predicate Separate(steps: seq<Step>) {
    StepsDiffer(steps) && Origins(steps) !! Targets(steps)
  }

  // gs is fs with every origin emptied into its target.
  ghost predicate Moved(fs: Files, steps: seq<Step>, gs: Files) {
    && gs.Keys == (fs.Keys - Origins(steps)) + Targets(steps)
    && (forall s :: s in steps ==> s.origin in fs && s.target in gs && gs[s.target] == fs[s.origin])
    && (forall p :: p in fs.Keys - Origins(steps) ==> p in gs && gs[p] == fs[p])
  }

  function Holding(fs: Files, content: Text): set<Place> {
    set p | p in fs && fs[p] == content
  }

  // ----- one step

  lemma StepKeepsContents(fs: Files, s: Step, content: Text)
    requires s.origin in fs && s.target !in fs
    ensures |Holding((fs - {s.origin})[s.target := fs[s.origin]], content)| == |Holding(fs, content)|
  {
    var gs := (fs - {s.origin})[s.target := fs[s.origin]];
    if fs[s.origin] == content {
      assert Holding(gs, content) == Holding(fs, content) - {s.origin} + {s.target};
    } else {
      assert Holding(gs, content) == Holding(fs, content);
    }
  }

  lemma HeadPlaces(steps: seq<Step>)
    requires steps != []
    ensures Origins(steps) == Origins(steps[1..]) + {steps[0].origin}
    ensures Targets(steps) == Targets(steps[1..]) + {steps[0].target}
  {
    var s, rest := steps[0], steps[1..];
    assert steps == [s] + rest;
    assert forall x :: x in steps <==> x == s || x in rest;
  }

  lemma FirstStep(fs: Files, steps: seq<Step>)
    requires steps != [] && Separate(steps) && Ready(fs, steps)
    ensures steps[0].origin in fs && steps[0].target !in fs
    ensures var gs := (fs - {steps[0].origin})[steps[0].target := fs[steps[0].origin]];
            Separate(steps[1..]) && Ready(gs, steps[1..])
  {
    var s, rest := steps[0], steps[1..];
    HeadPlaces(steps);
    assert s.origin !in Origins(rest) && s.target !in Targets(rest) by {
      forall x | x in rest ensures x.origin != s.origin && x.target != s.target {
        var i :| 0 <= i < |rest| && rest[i] == x;
        assert steps[i + 1] == x;
      }
    }
    assert Separate(rest) by {
      assert forall i :: 0 <= i < |rest| ==> rest[i] == steps[i + 1];
      hide Origins, Targets;
    }
    hide Origins, Targets, Separate;
  }

  lemma {:induction false} RunMoves(fs: Files, steps: seq<Step>)
    requires Separate(steps) && Ready(fs, steps)
    ensures Run(fs, steps).Some? && Moved(fs, steps, Run(fs, steps).value)
    ensures forall content :: |Holding(Run(fs, steps).value, content)| == |Holding(fs, content)|
    decreases |steps|
  {
    if steps != [] {
      var s, rest := steps[0], steps[1..];
      var gs := (fs - {s.origin})[s.target := fs[s.origin]];
      FirstStep(fs, steps);
      hide Separate, Ready, Moved;
      RunMoves(gs, rest);
      var hs := Run(gs, rest).value;
      forall content ensures |Holding(hs, content)| == |Holding(fs, content)| {
        StepKeepsContents(fs, s, content);
      }
      MovedAfter(fs, steps, hs);
    }
  }

  lemma MovedAfter(fs: Files, steps: seq<Step>, hs: Files)
    requires steps != [] && Separate(steps) && Ready(fs, steps)
    requires var gs := (fs - {steps[0].origin})[steps[0].target := fs[steps[0].origin]]; Moved(gs, steps[1..], hs)
    ensures Moved(fs, steps, hs)
  {
    var s, rest := steps[0], steps[1..];
    var gs := (fs - {s.origin})[s.target := fs[s.origin]];
    FirstStep(fs, steps);
    HeadPlaces(steps);
    forall x | x in steps ensures x.origin in fs && x.target in hs && hs[x.target] == fs[x.origin] {
      if x == s {
        assert s.target !in Origins(rest);
      } else {
        assert x in rest;
        assert x.origin in Origins(rest) && x.target in Targets(rest);
      }
    }
  }

  lemma MovedOnce(fs: Files, steps: seq<Step>, gs: Files, hs: Files)
    requires Moved(fs, steps, gs) && Moved(fs, steps, hs)
    ensures gs == hs
  {
    forall p | p in gs ensures gs[p] == hs[p] {
      if p in Targets(steps) {
        var s :| s in steps && s.target == p;
      }
    }
  }

  // ----- organize plans

  lemma {:induction false} StepsAre(actions: seq<Action>)
    ensures forall s :: s in MoveSteps(actions) <==>
      exists i :: 0 <= i < |actions| && Relocates(actions[i].op) && s == Step(Origin(actions[i].op), Target(actions[i].op))
  {
    if actions != [] {
      var n := |actions| - 1;
      StepsAre(actions[..n]);
      hide Joined;
      forall s ensures s in MoveSteps(actions) <==>
        exists i :: 0 <= i < |actions| && Relocates(actions[i].op) && s == Step(Origin(actions[i].op), Target(actions[i].op))
      {
        if s in MoveSteps(actions[..n]) {
          var i :| 0 <= i < n && Relocates(actions[..n][i].op)
            && s == Step(Origin(actions[..n][i].op), Target(actions[..n][i].op));
          assert actions[i] == actions[..n][i];
        }
        if i :| 0 <= i < |actions| && Relocates(actions[i].op) && s == Step(Origin(actions[i].op), Target(actions[i].op)) {
          if i < n { assert actions[i] == actions[..n][i]; }
        }
      }
    }
  }

  // No two actions read one path; the structural rules only say no two read one entry.
  ghost predicate OriginsDistinct(actions: seq<Action>) {
    forall i, j :: 0 <= i < j < |actions| && Relocates(actions[i].op) && Relocates(actions[j].op) ==>
      Origin(actions[i].op) != Origin(actions[j].op)
  }

  lemma {:induction false} StepsApart(actions: seq<Action>)
    requires Apart(actions) && OriginsDistinct(actions)
    ensures StepsDiffer(MoveSteps(actions))
  {
    if actions != [] {
      var n := |actions| - 1;
      var rest, op := MoveSteps(actions[..n]), actions[n].op;
      StepsApart(actions[..n]);
      hide Joined;
      if Relocates(op) {
        LastStepApart(actions);
        AppendApart(rest, Step(Origin(op), Target(op)));
      } else {
        assert MoveSteps(actions) == rest;
      }
    }
  }

  lemma AppendApart(steps: seq<Step>, s: Step)
    requires StepsDiffer(steps) && forall i :: 0 <= i < |steps| ==> steps[i].origin != s.origin && steps[i].target != s.target
    ensures StepsDiffer(steps + [s])
  {
  }

  lemma LastStepApart(actions: seq<Action>)
    requires Apart(actions) && OriginsDistinct(actions) && actions != [] && Relocates(actions[|actions| - 1].op)
    ensures var rest, op := MoveSteps(actions[..|actions| - 1]), actions[|actions| - 1].op;
            forall i :: 0 <= i < |rest| ==> rest[i].origin != Origin(op) && rest[i].target != Target(op)
  {
    var n := |actions| - 1;
    var rest, op := MoveSteps(actions[..n]), actions[n].op;
    StepsAre(actions[..n]);
    hide Joined, MoveSteps;
    forall i | 0 <= i < |rest| ensures rest[i].origin != Origin(op) && rest[i].target != Target(op) {
      assert rest[i] in rest;
      var k :| 0 <= k < n && Relocates(actions[..n][k].op)
        && rest[i] == Step(Origin(actions[..n][k].op), Target(actions[..n][k].op));
      assert actions[k] == actions[..n][k];
    }
  }

  // Where the steps can start, no step leads to where another starts.
  lemma ReadyKeepsApart(fs: Files, steps: seq<Step>)
    requires Ready(fs, steps)
    ensures Origins(steps) !! Targets(steps)
  {
  }

  lemma SeparateInAnyOrder(steps: seq<Step>, order: seq<Step>)
    requires Separate(steps) && multiset(steps) == multiset(order)
    ensures Separate(order)
    ensures forall s :: s in steps <==> s in order
  {
    assert forall s :: s in steps <==> s in multiset(steps);
    assert forall s :: s in order <==> s in multiset(order);
    var at := FindRearrangement(steps, order);
    assert Origins(steps) == Origins(order) && Targets(steps) == Targets(order);
    forall i, j | 0 <= i < j < |order| ensures order[i].origin != order[j].origin && order[i].target != order[j].target {
      assert order[i] == steps[at[i]] && order[j] == steps[at[j]];
      assert if at[i] < at[j] then steps[at[i]].origin != steps[at[j]].origin else steps[at[j]].origin != steps[at[i]].origin;
    }
  }

  // An accepted plan can be carried out in any order from where its files are and its targets
  // are free: nothing is overwritten, every content is kept as often as before, and where
  // everything ends up is fixed by the plan.
  lemma InAnyOrder(d: Doc, fs: Files, order: seq<Step>)
    requires Acceptable(d) && OriginsDistinct(d.actions)
    requires multiset(order) == multiset(MoveSteps(d.actions)) && Ready(fs, MoveSteps(d.actions))
    ensures Run(fs, order).Some? && Moved(fs, MoveSteps(d.actions), Run(fs, order).value)
    ensures forall content :: |Holding(Run(fs, order).value, content)| == |Holding(fs, content)|
  {
    var steps := MoveSteps(d.actions);
    StepsApart(d.actions);
    ReadyKeepsApart(fs, steps);
    SeparateInAnyOrder(steps, order);
    assert Origins(steps) == Origins(order) && Targets(steps) == Targets(order);
    RunMoves(fs, order);
  }

  lemma OrdersAgree(d: Doc, fs: Files, one: seq<Step>, two: seq<Step>)
    requires Acceptable(d) && OriginsDistinct(d.actions)
    requires multiset(one) == multiset(two) == multiset(MoveSteps(d.actions)) && Ready(fs, MoveSteps(d.actions))
    ensures Run(fs, one) == Run(fs, two)
  {
    InAnyOrder(d, fs, one);
    InAnyOrder(d, fs, two);
    MovedOnce(fs, MoveSteps(d.actions), Run(fs, one).value, Run(fs, two).value);
  }

  // Two organize steps never chain: an accepted plan has somewhere to start from.
  lemma OrganizeCanStart(d: Doc, content: Text) returns (fs: Files)
    requires Acceptable(d) && d.kind == Organizing
    ensures Ready(fs, MoveSteps(d.actions))
  {
    var steps := MoveSteps(d.actions);
    StepsAre(d.actions);
    fs := map p | p in Origins(steps) :: content;
    assert forall i :: 0 <= i < |d.actions| ==> KindOk(d.kind, d.actions[i].op);
    assert OrderFree(d.actions);
    hide Joined, MoveSteps, ActionOk;
    forall s, t | s in steps && t in steps ensures s.origin != t.target {}
  }

  lemma {:induction false} AbsentStays(fs: Files, steps: seq<Step>, p: Place)
    requires Run(fs, steps).Some? && p !in fs && p !in Targets(steps)
    ensures p !in Origins(steps)
    decreases |steps|
  {
    if steps != [] {
      HeadPlaces(steps);
      hide Origins, Targets;
      AbsentStays((fs - {steps[0].origin})[steps[0].target := fs[steps[0].origin]], steps[1..], p);
    }
  }

  // A run that succeeds never leaves from one place twice.
  lemma {:induction false} RunNeedsOrigins(fs: Files, steps: seq<Step>)
    requires Run(fs, steps).Some? && Origins(steps) !! Targets(steps)
    ensures forall i, j :: 0 <= i < j < |steps| ==> steps[i].origin != steps[j].origin
    decreases |steps|
  {
    if steps != [] {
      var s, rest := steps[0], steps[1..];
      var gs := (fs - {s.origin})[s.target := fs[s.origin]];
      HeadPlaces(steps);
      assert s.origin in Origins(steps) && s.target in Targets(steps);
      assert s.origin !in gs;
      AbsentStays(gs, rest, s.origin);
      RunNeedsOrigins(gs, rest);
      forall j | 0 < j < |steps| ensures steps[j].origin != s.origin {
        assert steps[j] == rest[j - 1] && rest[j - 1] in rest;
        assert rest[j - 1].origin in Origins(rest);
      }
    }
  }

  // Distinct origins of the steps are distinct origins of the actions.
  lemma {:induction false} OriginsOfSteps(actions: seq<Action>)
    requires var steps := MoveSteps(actions); forall i, j :: 0 <= i < j < |steps| ==> steps[i].origin != steps[j].origin
    ensures OriginsDistinct(actions)
  {
    if actions != [] {
      var n := |actions| - 1;
      var rest, op := MoveSteps(actions[..n]), actions[n].op;
      assert rest <= MoveSteps(actions);
      OriginsOfSteps(actions[..n]);
      StepsAre(actions[..n]);
      hide Joined;
      forall i, j | 0 <= i < j < |actions| && Relocates(actions[i].op) && Relocates(actions[j].op)
        ensures Origin(actions[i].op) != Origin(actions[j].op)
      {
        assert actions[i] == actions[..n][i];
        if j < n {
          assert actions[j] == actions[..n][j];
        } else {
          var s := Step(Origin(actions[i].op), Target(actions[i].op));
          assert s in rest;
          var k :| 0 <= k < |rest| && rest[k] == s;
          assert MoveSteps(actions)[k] == s && MoveSteps(actions)[|rest|] == Step(Origin(op), Target(op));
        }
      }
    }
  }

  lemma SameOrigins(steps: seq<Step>, order: seq<Step>)
    requires multiset(steps) == multiset(order)
    requires forall i, j :: 0 <= i < j < |order| ==> order[i].origin != order[j].origin
    ensures forall i, j :: 0 <= i < j < |steps| ==> steps[i].origin != steps[j].origin
    ensures forall s :: s in steps <==> s in order
  {
    assert forall s :: s in steps <==> s in multiset(steps);
    assert forall s :: s in order <==> s in multiset(order);
    var at := FindRearrangement(order, steps);
    forall i, j | 0 <= i < j < |steps| ensures steps[i].origin != steps[j].origin {
      assert steps[i] == order[at[i]] && steps[j] == order[at[j]];
      assert if at[i] < at[j] then order[at[i]].origin != order[at[j]].origin else order[at[j]].origin != order[at[i]].origin;
    }
  }

  // The rules let two entries share a path, and then the second finds nothing to move: an
  // accepted plan can be carried out, in whatever order, from where its files are and its
  // targets are free, exactly when no two of its actions read one path.
  lemma CarriedOutExactly(d: Doc, fs: Files, order: seq<Step>)
    requires Acceptable(d) && multiset(order) == multiset(MoveSteps(d.actions)) && Ready(fs, MoveSteps(d.actions))
    ensures Run(fs, order).Some? <==> OriginsDistinct(d.actions)
  {
    var steps := MoveSteps(d.actions);
    if OriginsDistinct(d.actions) {
      InAnyOrder(d, fs, order);
    }
    if Run(fs, order).Some? {
      assert Origins(order) == Origins(steps) && Targets(order) == Targets(steps) by { SameSteps(steps, order); }
      ReadyKeepsApart(fs, steps);
      RunNeedsOrigins(fs, order);
      SameOrigins(steps, order);
      OriginsOfSteps(d.actions);
    }
  }

  lemma SameSteps(steps: seq<Step>, order: seq<Step>)
    requires multiset(steps) == multiset(order)
    ensures Origins(order) == Origins(steps) && Targets(order) == Targets(steps)
  {
    assert forall s :: s in steps <==> s in multiset(steps);
    assert forall s :: s in order <==> s in multiset(order);
  }
}
