/** What the summary of a plan says (src/core/plan.rs). */
module PlanTotals {
  import opened Order
  import opened Hex
  import opened PlanDoc

  function LineTotal(lines: seq<OpCount>): nat {
    if lines == [] then 0 else lines[0].count + LineTotal(lines[1..])
  }

  function CountAll(actions: seq<Action>, tags: seq<Text>): nat {
    if tags == [] then 0 else CountTag(actions, tags[0]) + CountAll(actions, tags[1..])
  }

  lemma {:induction false} LinesAddUp(actions: seq<Action>, tags: seq<Text>)
    ensures LineTotal(TagCounts(actions, tags)) == CountAll(actions, tags)
  {
    if tags != [] {
      LinesAddUp(actions, tags[1..]);
      var n, rest := CountTag(actions, tags[0]), TagCounts(actions, tags[1..]);
      if n > 0 {
        assert ([OpCount(tags[0], n)] + rest)[1..] == rest;
      } else {
        assert TagCounts(actions, tags) == rest;
      }
    }
  }

  lemma FourTags(actions: seq<Action>, a: Text, b: Text, c: Text, d: Text)
    ensures CountAll(actions, [a, b, c, d])
         == CountTag(actions, a) + CountTag(actions, b) + CountTag(actions, c) + CountTag(actions, d)
  {
    var s3: seq<Text>, s2: seq<Text>, s1: seq<Text> := [b, c, d], [c, d], [d];
    assert [a, b, c, d][1..] == s3 && s3[1..] == s2 && s2[1..] == s1 && |s1[1..]| == 0;
    assert CountAll(actions, s1) == CountTag(actions, d);
    assert CountAll(actions, s2) == CountTag(actions, c) + CountAll(actions, s1);
    assert CountAll(actions, s3) == CountTag(actions, b) + CountAll(actions, s2);
  }

  lemma {:induction false} EveryActionTagged(actions: seq<Action>)
    ensures CountAll(actions, AllTags()) == |actions|
  {
    var a, b, c, d := Ascii("extract"), Ascii("mkdir"), Ascii("move"), Ascii("quarantine");
    assert |a| == 7 && |b| == 5 && |c| == 4 && |d| == 10;
    FourTags(actions, a, b, c, d);
    if actions != [] {
      var rest := actions[..|actions| - 1];
      EveryActionTagged(rest);
      FourTags(rest, a, b, c, d);
      var tag := Tag(actions[|actions| - 1].op);
      assert tag == a || tag == b || tag == c || tag == d;
      hide Ascii, CountAll;
    }
  }

  lemma {:induction false} AddOrderedIs(s: seq<nat>, n: nat)
    requires Ascending(s)
    ensures Ascending(AddOrdered(s, n)) && forall x: nat :: x in AddOrdered(s, n) <==> x in s || x == n
  {
    if s != [] && n > s[0] {
      var rest := AddOrdered(s[1..], n);
      AddOrderedIs(s[1..], n);
      assert s == [s[0]] + s[1..];
      forall i | 0 <= i < |rest| ensures s[0] < rest[i] {
        assert rest[i] in rest;
      }
    }
  }

  lemma {:induction false} RootsWrittenIs(actions: seq<Action>)
    ensures Ascending(RootsWritten(actions))
    ensures forall r: nat :: r in RootsWritten(actions) <==> exists i :: 0 <= i < |actions| && actions[i].op.dest.root == r
  {
    if actions != [] {
      var n := |actions| - 1;
      var before := RootsWritten(actions[..n]);
      RootsWrittenIs(actions[..n]);
      AddOrderedIs(before, actions[n].op.dest.root);
      forall r: nat ensures r in RootsWritten(actions) <==> exists i :: 0 <= i < |actions| && actions[i].op.dest.root == r {
        if r in before {
          var i :| 0 <= i < n && actions[..n][i].op.dest.root == r;
          assert actions[i].op.dest.root == r;
        }
        if i :| 0 <= i < |actions| && actions[i].op.dest.root == r {
          if i < n { assert actions[..n][i].op.dest.root == r; }
        }
      }
    }
  }

  // The lines by operation add up to the total, and the roots written are exactly those some
  // action writes to, in order and each once.
  lemma SummaryAddsUp(d: Doc)
    ensures var s := SummaryOf(d.actions, d.groups, d.excluded);
            && LineTotal(s.actionsByOp) == s.actionsTotal
            && Ascending(s.rootsWritten)
            && forall r: nat :: r in s.rootsWritten <==>
                 exists i :: 0 <= i < |d.actions| && d.actions[i].op.dest.root == r
  {
    LinesAddUp(d.actions, AllTags());
    EveryActionTagged(d.actions);
    RootsWrittenIs(d.actions);
    hide AllTags, RootsWritten, TagCounts, CountAll, LineTotal;
  }

  // ----- the lines and the byte totals

  ghost function OfTag(actions: seq<Action>, tag: Text): set<int> {
    set i | 0 <= i < |actions| && Tag(actions[i].op) == tag
  }

  lemma {:induction false} CountsOfTag(actions: seq<Action>, tag: Text)
    ensures CountTag(actions, tag) == |OfTag(actions, tag)|
  {
    hide Tag;
    if actions != [] {
      var n := |actions| - 1;
      CountsOfTag(actions[..n], tag);
      assert OfTag(actions, tag) == OfTag(actions[..n], tag) + if Tag(actions[n].op) == tag then {n} else {};
    }
  }

  lemma {:induction false} LinesRead(actions: seq<Action>, tags: seq<Text>)
    requires Distinct(tags)
    ensures forall op, n :: OpCount(op, n) in TagCounts(actions, tags) <==> op in tags && n > 0 && n == CountTag(actions, op)
  {
    hide CountTag;
    if tags != [] {
      var rest := tags[1..];
      assert tags == [tags[0]] + rest;
      assert Distinct(rest) && tags[0] !in rest;
      LinesRead(actions, rest);
    }
  }

  lemma TagsDiffer()
    ensures Distinct(AllTags())
  {
    var a, b, c, d := Ascii("extract"), Ascii("mkdir"), Ascii("move"), Ascii("quarantine");
    assert |a| == 7 && |b| == 5 && |c| == 4 && |d| == 10;
    hide Ascii;
  }

  // A line for each operation that occurs, with the number of its actions.
  lemma LinesAreCounts(d: Doc, tag: Text, n: nat)
    ensures OpCount(tag, n) in SummaryOf(d.actions, d.groups, d.excluded).actionsByOp <==>
              && n > 0 && n == |OfTag(d.actions, tag)|
  {
    TagsDiffer();
    LinesRead(d.actions, AllTags());
    CountsOfTag(d.actions, tag);
    hide CountTag, TagCounts;
    if OfTag(d.actions, tag) != {} {
      var i :| i in OfTag(d.actions, tag);
      TagListed(d.actions[i].op);
    }
  }

  // Byte order on the names of the operations.
  ghost predicate NameLess(x: Text, y: Text) {
    x != y && (x <= y || FirstDifferenceLess(x, y))
  }

  lemma NamesInOrder()
    ensures var t := AllTags(); forall i, j :: 0 <= i < j < |t| ==> NameLess(t[i], t[j])
  {
    var t := AllTags();
    assert t[0][0] == 101 && t[1][0] == 109 && t[1][1] == 107 && t[2][0] == 109 && t[2][1] == 111 && t[3][0] == 113;
    hide Ascii;
    forall i, j | 0 <= i < j < |t| ensures NameLess(t[i], t[j]) {
      if i == 1 && j == 2 {
        assert t[1][..1] == t[2][..1];
      } else {
        assert t[i][..0] == t[j][..0];
      }
    }
  }

  lemma {:induction false} LinesFrom(actions: seq<Action>, tags: seq<Text>, k: nat)
    requires k < |TagCounts(actions, tags)|
    ensures TagCounts(actions, tags)[k].op in tags
  {
    hide CountTag;
    var none := CountTag(actions, tags[0]) == 0;
    if none || k > 0 {
      LinesFrom(actions, tags[1..], if none then k else k - 1);
    }
  }

  lemma {:induction false} LinesInTagOrder(actions: seq<Action>, tags: seq<Text>, i: nat, j: nat)
    requires forall x, y :: 0 <= x < y < |tags| ==> NameLess(tags[x], tags[y])
    requires i < j < |TagCounts(actions, tags)|
    ensures NameLess(TagCounts(actions, tags)[i].op, TagCounts(actions, tags)[j].op)
  {
    hide CountTag, NameLess;
    var rest := tags[1..];
    assert forall x :: 0 <= x < |rest| ==> rest[x] == tags[x + 1];
    if CountTag(actions, tags[0]) == 0 {
      LinesInTagOrder(actions, rest, i, j);
    } else if i > 0 {
      LinesInTagOrder(actions, rest, i - 1, j - 1);
    } else {
      LinesFrom(actions, rest, j - 1);
      var m :| 0 <= m < |rest| && rest[m] == TagCounts(actions, rest)[j - 1].op;
      assert NameLess(tags[0], tags[m + 1]);
    }
  }

  // The lines are in byte order of the operation names.
  lemma LinesInOrder(d: Doc, i: nat, j: nat)
    requires i < j < |SummaryOf(d.actions, d.groups, d.excluded).actionsByOp|
    ensures var lines := SummaryOf(d.actions, d.groups, d.excluded).actionsByOp; NameLess(lines[i].op, lines[j].op)
  {
    hide NameLess, AllTags, TagCounts;
    NamesInOrder();
    LinesInTagOrder(d.actions, AllTags(), i, j);
  }

  lemma TagListed(op: Op)
    ensures Tag(op) in AllTags()
  {
    var tags := AllTags();
    assert tags[0] in tags && tags[1] in tags && tags[2] in tags && tags[3] in tags;
    hide Ascii;
  }

  function Sum(ns: seq<nat>): nat {
    if ns == [] then 0 else ns[0] + Sum(ns[1..])
  }

  lemma {:induction false} SumSnoc(ns: seq<nat>, n: nat)
    ensures Sum(ns + [n]) == Sum(ns) + n
  {
    if ns == [] {
      assert (ns + [n])[1..] == [];
    } else {
      assert (ns + [n])[1..] == ns[1..] + [n];
      SumSnoc(ns[1..], n);
    }
  }

  // The size of the file an action reads; a directory made reads none.
  function SizeRead(a: Action): nat {
    match a.op
    case Mkdir(_) => 0
    case Move(_, s, _) => s.size
    case Extract(_, s, _) => s.size
    case Quarantine(_, s, _, _) => s.size
  }

  function SizesRead(actions: seq<Action>): seq<nat> {
    seq(|actions|, i requires 0 <= i < |actions| => SizeRead(actions[i]))
  }

  function SizesLeft(excluded: seq<Excluded>): seq<nat> {
    seq(|excluded|, i requires 0 <= i < |excluded| => excluded[i].size)
  }

  lemma {:induction false} ActionBytesAre(actions: seq<Action>)
    ensures ActionBytes(actions) == Sum(SizesRead(actions))
  {
    if actions != [] {
      var n := |actions| - 1;
      ActionBytesAre(actions[..n]);
      SumSnoc(SizesRead(actions[..n]), SizeRead(actions[n]));
      assert SizesRead(actions) == SizesRead(actions[..n]) + [SizeRead(actions[n])];
    }
  }

  lemma {:induction false} ExcludedBytesAre(excluded: seq<Excluded>)
    ensures ExcludedBytes(excluded) == Sum(SizesLeft(excluded))
  {
    if excluded != [] {
      var n := |excluded| - 1;
      ExcludedBytesAre(excluded[..n]);
      SumSnoc(SizesLeft(excluded[..n]), excluded[n].size);
      assert SizesLeft(excluded) == SizesLeft(excluded[..n]) + [excluded[n].size];
    }
  }

  // The byte totals are the sums of the sizes read and of the sizes left out.
  lemma BytesAddUp(d: Doc)
    ensures var s := SummaryOf(d.actions, d.groups, d.excluded);
            && s.bytesAffected == Sum(SizesRead(d.actions))
            && s.excludedBytes == Sum(SizesLeft(d.excluded))
            && s.actionsTotal == |d.actions| && s.groupsTotal == |d.groups| && s.excludedTotal == |d.excluded|
  {
    ActionBytesAre(d.actions);
    ExcludedBytesAre(d.excluded);
  }
}
