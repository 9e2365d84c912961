/**
 What a duplicate report says (src/core/dedup.rs), in the fields of the rows: which file of a
 group is kept, which rows form a group, what the numbers are and how the list is ordered.
 */
module DedupReading {
  import opened Basics
  import opened Order
  import opened NearDup
  import opened Dedup

  predicate Real(r: Row) {
    !r.hardlink && !r.shadowed
  }

  // The EXIF time, else the file's, else the archive's.
  function When(r: Row): Option<int> {
    match r.exif
    case Some(t) => Some(t)
    case None =>
      match r.mtime
      case Some(t) => Some(t)
      case None => r.archiveIndexed
  }

  // No time counts as the earliest 64-bit one.
  predicate Later(x: Row, y: Row) {
    match (When(x), When(y))
    case (Some(t), Some(u)) => t > u
    case (Some(t), None) => t > -0x8000_0000_0000_0000
    case (None, Some(u)) => -0x8000_0000_0000_0000 > u
    case (None, None) => false
  }

  predicate SameTime(x: Row, y: Row) {
    !Later(x, y) && !Later(y, x)
  }

  predicate LowerId(x: Row, y: Row) {
    x.archiveId < y.archiveId || (x.archiveId == y.archiveId && x.fileId < y.fileId)
  }

  // Exact copies: the newest; then a path without a copy marker; then the shorter path; then the lower id.
  predicate BetterCopy(p: Params, x: Row, y: Row) {
    || Later(x, y)
    || (SameTime(x, y) && !p.marked(x.path) && p.marked(y.path))
    || (SameTime(x, y) && p.marked(x.path) == p.marked(y.path) && |x.path| < |y.path|)
    || (SameTime(x, y) && p.marked(x.path) == p.marked(y.path) && |x.path| == |y.path| && LowerId(x, y))
  }

  function Pixels(r: Row): nat {
    if r.width.Some? && r.height.Some? then r.width.value * r.height.value else 0
  }

  // Similar images: the most pixels; then the larger file; then the newest; then the lower id.
  predicate BetterImage(x: Row, y: Row) {
    || Pixels(x) > Pixels(y)
    || (Pixels(x) == Pixels(y) && x.size > y.size)
    || (Pixels(x) == Pixels(y) && x.size == y.size && Later(x, y))
    || (Pixels(x) == Pixels(y) && x.size == y.size && SameTime(x, y) && LowerId(x, y))
  }

  predicate Better(p: Params, kind: MatchKind, x: Row, y: Row) {
    match kind
    case Exact => BetterCopy(p, x, y)
    case Near => BetterImage(x, y)
  }

  // ----- the keeper

  lemma LexOfFive(a: seq<int>, b: seq<int>)
    requires |a| == |b| == 5
    ensures LexLe(a, b) <==>
              || a[0] < b[0]
              || (a[0] == b[0] && a[1] < b[1])
              || (a[..2] == b[..2] && a[2] < b[2])
              || (a[..3] == b[..3] && a[3] < b[3])
              || (a[..4] == b[..4] && a[4] <= b[4])
  {
    var a1, a2, a3, a4 := a[1..], a[2..], a[3..], a[4..];
    var b1, b2, b3, b4 := b[1..], b[2..], b[3..], b[4..];
    assert a1[1..] == a2 && a2[1..] == a3 && a3[1..] == a4 && a4[1..] == [];
    assert b1[1..] == b2 && b2[1..] == b3 && b3[1..] == b4 && b4[1..] == [];
    assert LexLe(a4, b4) <==> a[4] <= b[4];
    assert LexLe(a3, b3) <==> a[3] < b[3] || (a[3] == b[3] && a[4] <= b[4]);
    assert LexLe(a2, b2) <==> a[2] < b[2] || (a[2] == b[2] && LexLe(a3, b3));
    assert LexLe(a1, b1) <==> a[1] < b[1] || (a[1] == b[1] && LexLe(a2, b2));
    assert a[..2] == b[..2] <==> a[0] == b[0] && a[1] == b[1];
    assert a[..3] == b[..3] <==> a[0] == b[0] && a[1] == b[1] && a[2] == b[2];
    assert a[..4] == b[..4] <==> a[0] == b[0] && a[1] == b[1] && a[2] == b[2] && a[3] == b[3];
  }

  lemma TimesRead(x: Row, y: Row)
    ensures Later(x, y) <==> BestTime(x) > BestTime(y)
    ensures SameTime(x, y) <==> BestTime(x) == BestTime(y)
  {
  }

  lemma PixelsRead(r: Row)
    ensures Pixels(r) == OrZero(r.width) * OrZero(r.height)
  {
  }

  lemma KeepKeyIs(rows: seq<Row>, p: Params, kind: MatchKind, i: nat)
    requires i < |rows|
    ensures var r := rows[i];
            KeepKey(rows, p, kind)(i) == Key(0, 0,
              if kind == Near then [Pixels(r), r.size, BestTime(r), -r.archiveId, -r.fileId]
              else [BestTime(r), if p.marked(r.path) then 0 else 1, -|r.path|, -r.archiveId, -r.fileId], 0, 0)
  {
    PixelsRead(rows[i]);
    hide BestTime, Pixels, OrZero;
  }

  lemma NotBehind(a: seq<int>, b: seq<int>)
    requires |a| == |b| == 5 && (a == b || LexLe(a, b))
    ensures !(a[0] > b[0]) && !(a[0] == b[0] && a[1] > b[1]) && !(a[0] == b[0] && a[1] == b[1] && a[2] > b[2])
    ensures !(a[0] == b[0] && a[1] == b[1] && a[2] == b[2] && a[3] > b[3])
    ensures !(a[0] == b[0] && a[1] == b[1] && a[2] == b[2] && a[3] == b[3] && a[4] > b[4])
  {
    if a != b {
      LexOfFive(a, b);
      assert a[..2] == b[..2] ==> a[..2][0] == b[..2][0] && a[..2][1] == b[..2][1];
      assert a[..3] == b[..3] ==> a[..3][0] == b[..3][0] && a[..3][1] == b[..3][1] && a[..3][2] == b[..3][2];
      assert a[..4] == b[..4] ==>
        a[..4][0] == b[..4][0] && a[..4][1] == b[..4][1] && a[..4][2] == b[..4][2] && a[..4][3] == b[..4][3];
      hide LexLe;
    }
  }

  // The keep key prefers what is better.
  lemma KeepKeyReads(rows: seq<Row>, p: Params, kind: MatchKind, i: nat, k: nat)
    requires i < |rows| && k < |rows| && KeyLe(KeepKey(rows, p, kind)(i), KeepKey(rows, p, kind)(k))
    ensures !Better(p, kind, rows[i], rows[k])
  {
    hide KeepKey, Later, SameTime, Pixels, BestTime, LexLe;
    TimesRead(rows[i], rows[k]);
    TimesRead(rows[k], rows[i]);
    KeepKeyIs(rows, p, kind, i);
    KeepKeyIs(rows, p, kind, k);
    NotBehind(KeepKey(rows, p, kind)(i).path, KeepKey(rows, p, kind)(k).path);
  }

  // In every reported group one member is kept: a real file that no other real file of the
  // group is better than.
  lemma KeeperReads(rows: seq<Row>, p: Params, all: seq<Group>, g: Group)
    requires IsFullList(rows, p, all) && g in all
    ensures forall m :: m in g.members ==> m.idx < |rows|
    ensures exists k :: k in g.members && k.keep && Real(rows[k.idx])
              && (forall m :: m in g.members && m.keep ==> m == k)
              && (forall m :: m in g.members && Real(rows[m.idx]) ==> !Better(p, g.kind, rows[m.idx], rows[k.idx]))
  {
    var raw :| IsReported(rows, p, raw, g);
    hide IsReported, IsRaw, TallyOf, IsFullList, Better, KeepKey, Hamming, IsActionable;
    var keeper := BuiltShape(rows, p, raw, g);
    var k := MemberOf(rows, p, raw.kind, keeper, keeper);
    assert k in g.members && k.keep;
    forall m | m in g.members && Real(rows[m.idx]) ensures !Better(p, g.kind, rows[m.idx], rows[k.idx]) {
      KeepKeyReads(rows, p, raw.kind, m.idx, keeper);
    }
  }

  // ----- members

  // What the report says of member m beside keeper k.
  ghost predicate MemberFields(rows: seq<Row>, p: Params, kind: MatchKind, k: Member, m: Member)
    requires k.idx < |rows| && m.idx < |rows|
  {
    var x, y := rows[k.idx], rows[m.idx];
    && (kind == Exact ==> m.hamming == Some(0) && y.contentHash.Some? && y.contentHash == x.contentHash)
    && (kind == Near ==> x.phash.Some? && y.phash.Some? && m.hamming == Some(Hamming(x.phash.value, y.phash.value)))
    && (m.actionable <==> !m.keep && Real(y) && (kind == Near ==> m.hamming.Some? && m.hamming.value <= p.threshold))
  }

  lemma MemberOfReads(rows: seq<Row>, p: Params, kind: MatchKind, keeper: nat, i: nat)
    requires keeper < |rows| && i < |rows|
    requires kind == Exact ==> rows[i].contentHash.Some? && rows[i].contentHash == rows[keeper].contentHash
    requires kind == Near ==> rows[i].phash.Some? && rows[keeper].phash.Some?
    ensures MemberFields(rows, p, kind, MemberOf(rows, p, kind, keeper, keeper), MemberOf(rows, p, kind, keeper, i))
  {
    hide Hamming;
  }

  lemma RawAlike(rows: seq<Row>, p: Params, raw: Raw, i: nat, j: nat)
    requires IsRaw(rows, p, raw) && i in raw.idxs && j in raw.idxs
    ensures i < |rows| && j < |rows|
    ensures raw.kind == Exact ==> rows[i].contentHash.Some? && rows[i].contentHash == rows[j].contentHash
    ensures raw.kind == Near ==> rows[i].phash.Some? && rows[j].phash.Some?
  {
    RawShape(rows, p, raw);
    if raw.kind == Exact {
      ExactRawIsExact(rows, p, raw);
      ExactMembers(rows, p, raw);
    } else {
      NearMembersSearchable(rows, p, raw, i);
      NearMembersSearchable(rows, p, raw, j);
    }
    hide IsRaw, IsTrivial, InNear;
  }

  // A member's distance to the keeper is measured in near groups and nothing in exact ones;
  // it may be removed when it is another real file, and in near groups within the threshold.
  lemma MembersRead(rows: seq<Row>, p: Params, all: seq<Group>, g: Group)
    requires IsFullList(rows, p, all) && g in all
    ensures forall m :: m in g.members ==> m.idx < |rows|
    ensures exists k :: k in g.members && k.keep && forall m :: m in g.members ==> MemberFields(rows, p, g.kind, k, m)
  {
    var raw :| IsReported(rows, p, raw, g);
    hide IsReported, IsRaw, TallyOf, IsFullList, KeepKey, MemberFields, RealFile;
    var keeper := BuiltShape(rows, p, raw, g);
    var k := MemberOf(rows, p, raw.kind, keeper, keeper);
    MemberIdx(rows, p, raw.kind, keeper, keeper);
    assert k in g.members && k.keep;
    forall m | m in g.members ensures MemberFields(rows, p, g.kind, k, m) {
      RawAlike(rows, p, raw, m.idx, keeper);
      MemberOfReads(rows, p, raw.kind, keeper, m.idx);
      hide MemberOf;
    }
  }

  // Positions marked true.
  function Marks(f: seq<bool>): set<int> {
    set j | 0 <= j < |f| && f[j]
  }

  function Trues(f: seq<bool>): nat {
    if f == [] then 0 else (if f[0] then 1 else 0) + Trues(f[1..])
  }

  lemma {:induction false} TruesSnoc(f: seq<bool>, x: bool)
    ensures Trues(f + [x]) == Trues(f) + if x then 1 else 0
  {
    if f == [] {
      assert (f + [x])[1..] == [];
    } else {
      assert (f + [x])[1..] == f[1..] + [x];
      TruesSnoc(f[1..], x);
    }
  }

  lemma {:induction false} TruesAreMarks(f: seq<bool>)
    ensures Trues(f) == |Marks(f)|
  {
    if f != [] {
      var n := |f| - 1;
      TruesAreMarks(f[..n]);
      TruesSnoc(f[..n], f[n]);
      assert f == f[..n] + [f[n]];
      assert Marks(f) == Marks(f[..n]) + if f[n] then {n} else {};
    }
  }

  function Shares(rows: seq<Row>, ms: seq<Member>, share: Share): (f: seq<bool>)
    ensures |f| == |ms|
  {
    seq(|ms|, j requires 0 <= j < |ms| => ms[j].idx < |rows| && ShareOf(rows[ms[j].idx], ms[j]) == share)
  }

  // Removable members are counted as duplicates, the other real ones but the keeper as
  // transitive only.
  lemma {:induction false} TallyCounts(rows: seq<Row>, ms: seq<Member>)
    requires MembersInRange(rows, ms)
    ensures TallyOf(rows, ms).duplicates == |Marks(Shares(rows, ms, Reclaimable))|
    ensures TallyOf(rows, ms).transitiveOnly == |Marks(Shares(rows, ms, ReviewOnly))|
  {
    TruesAreMarks(Shares(rows, ms, Reclaimable));
    TruesAreMarks(Shares(rows, ms, ReviewOnly));
    hide Marks;
    if |ms| > 0 {
      assert ms[0] in ms;
      TallyCounts(rows, ms[1..]);
      TruesAreMarks(Shares(rows, ms[1..], Reclaimable));
      TruesAreMarks(Shares(rows, ms[1..], ReviewOnly));
      assert Shares(rows, ms, Reclaimable)[1..] == Shares(rows, ms[1..], Reclaimable);
      assert Shares(rows, ms, ReviewOnly)[1..] == Shares(rows, ms[1..], ReviewOnly);
    }
  }

  // The distance shown for a group is the greatest of its members.
  lemma {:induction false} TallyGreatest(rows: seq<Row>, ms: seq<Member>)
    requires MembersInRange(rows, ms)
    ensures forall m :: m in ms && m.hamming.Some? ==> m.hamming.value <= TallyOf(rows, ms).maxDistance
    ensures TallyOf(rows, ms).maxDistance == 0 || exists m :: m in ms && m.hamming == Some(TallyOf(rows, ms).maxDistance)
  {
    if |ms| > 0 {
      assert ms == [ms[0]] + ms[1..] && ms[0] in ms;
      TallyGreatest(rows, ms[1..]);
    }
  }

  // ----- which rows form a group

  lemma {:induction false} OnesCounted(h: seq<bool>)
    ensures CountDiff(h, seq(|h|, _ => false)) == Trues(h)
  {
    if h != [] {
      OnesCounted(h[1..]);
      assert seq(|h|, _ => false)[1..] == seq(|h[1..]|, _ => false);
    }
  }

  function Differences(a: seq<bool>, b: seq<bool>): (f: seq<bool>)
    requires |a| == |b|
    ensures |f| == |a|
  {
    seq(|a|, j requires 0 <= j < |a| => a[j] != b[j])
  }

  lemma {:induction false} DifferencesCounted(a: seq<bool>, b: seq<bool>)
    requires |a| == |b|
    ensures CountDiff(a, b) == Trues(Differences(a, b))
  {
    if a != [] {
      DifferencesCounted(a[1..], b[1..]);
      assert Differences(a, b)[1..] == Differences(a[1..], b[1..]);
    }
  }

  // The distance of two hashes is the number of bits they differ in.
  lemma HammingReads(a: Hash64, b: Hash64)
    ensures Hamming(a, b) == |set j | 0 <= j < 64 && a[j] != b[j]|
  {
    DifferencesCounted(a, b);
    TruesAreMarks(Differences(a, b));
    assert Marks(Differences(a, b)) == set j | 0 <= j < 64 && a[j] != b[j];
  }

  // Searched perceptually: a real image with a hash that is neither almost blank nor almost full.
  lemma ImagesRead(rows: seq<Row>, i: nat)
    ensures i in Images(rows) <==>
              && i < |rows| && rows[i].kind == "image" && Real(rows[i]) && rows[i].phash.Some?
              && 2 <= |Marks(rows[i].phash.value)| <= 62
  {
    if i in Images(rows) { var k :| 0 <= k < |Images(rows)| && Images(rows)[k] == i; }
    if i < |rows| && rows[i].phash.Some? {
      var h := rows[i].phash.value;
      OnesCounted(h);
      TruesAreMarks(h);
      assert seq(64, _ => false) == seq(|h|, _ => false);
      assert Hamming(h, seq(64, _ => false)) == |Marks(h)|;
    }
    hide Hamming, Marks, Images;
  }

  lemma AtLeastTwo(s: set<nat>)
    ensures |s| >= 2 <==> exists i, j :: i in s && j in s && i != j
  {
    if |s| >= 2 {
      var i: nat :| i in s;
      assert |s - {i}| >= 1;
      var j: nat :| j in s - {i};
      assert i in s && j in s && i != j;
    }
    if i: nat, j: nat :| i in s && j in s && i != j {
      SubsetSize({i, j}, s);
    }
  }

  // An exact group is all rows of one content hash that no near group holds, if two of them are
  // real files, or one is and another is a shadowed twin.
  lemma ExactReads(rows: seq<Row>, p: Params, raw: Raw)
    ensures IsExactRaw(rows, p, raw) <==>
              && p.exact && raw.kind == Exact && Ascending(raw.idxs)
              && (exists h: nat :: forall i: nat :: i in raw.idxs <==>
                    i < |rows| && rows[i].contentHash == Some(h) && !InNear(rows, p, i))
              && (exists i, j :: i in raw.idxs && j in raw.idxs && i != j && i < |rows| && j < |rows|
                    && Real(rows[i]) && (Real(rows[j]) || rows[j].shadowed))
  {
    EnoughReads(rows, raw.idxs);
    hide EnoughCopies, InNear;
    if IsExactRaw(rows, p, raw) {
      var h: nat :| IsExactOf(rows, p, raw.idxs, h);
      IndicesOfMembers(ExactLabels(rows, p), Some(h), |rows|);
      assert forall i: nat :: i in raw.idxs <==> i < |rows| && rows[i].contentHash == Some(h) && !InNear(rows, p, i);
    }
    if Ascending(raw.idxs) {
      if h: nat :| forall i: nat :: i in raw.idxs <==> i < |rows| && rows[i].contentHash == Some(h) && !InNear(rows, p, i) {
        IndicesOfMembers(ExactLabels(rows, p), Some(h), |rows|);
        AscendingUnique(raw.idxs, IndicesOf(ExactLabels(rows, p), Some(h), |rows|));
        if EnoughCopies(rows, raw.idxs) { assert IsExactOf(rows, p, raw.idxs, h); }
      }
    }
  }

  lemma EnoughReads(rows: seq<Row>, idxs: seq<nat>)
    ensures EnoughCopies(rows, idxs) <==>
              exists i, j :: i in idxs && j in idxs && i != j && i < |rows| && j < |rows|
                && Real(rows[i]) && (Real(rows[j]) || rows[j].shadowed)
  {
    var files := set i | i in idxs && RealFile(rows, i);
    var shadowed := set i | i in idxs && Shadowed(rows, i);
    AtLeastTwo(files);
    if EnoughCopies(rows, idxs) {
      if |files| < 2 {
        assert files != {} && shadowed != {};
        var i: nat :| i in files;
        var j: nat :| j in shadowed;
        assert i in idxs && j in idxs && Real(rows[i]) && rows[j].shadowed;
      } else {
        var i: nat, j: nat :| i in files && j in files && i != j;
        assert i in idxs && j in idxs && Real(rows[i]) && Real(rows[j]);
      }
    }
    if i: nat, j: nat :| i in idxs && j in idxs && i != j && i < |rows| && j < |rows| && Real(rows[i]) && (Real(rows[j]) || rows[j].shadowed) {
      assert i in files;
      if Real(rows[j]) { assert j in files; } else { assert j in shadowed; }
    }
  }

  // ----- the order of the list

  // What groups are sorted by, the greater first.
  ghost predicate Outranks(rows: seq<Row>, p: Params, g: Group, h: Group)
    requires MembersInRange(rows, g.members) && MembersInRange(rows, h.members)
  {
    match p.sort
    case Wasted => g.reclaimable > h.reclaimable
    case Count => |g.members| > |h.members|
    case Newest => exists k, l :: k in g.members && k.keep && l in h.members && l.keep && Later(rows[k.idx], rows[l.idx])
  }

  // Some member of g has a lower id than every member of h.
  ghost predicate StartsEarlier(rows: seq<Row>, g: Group, h: Group)
    requires MembersInRange(rows, g.members) && MembersInRange(rows, h.members)
  {
    exists m :: m in g.members && forall n :: n in h.members ==> LowerId(rows[m.idx], rows[n.idx])
  }

  lemma {:induction false} KeeperTimeReads(rows: seq<Row>, ms: seq<Member>, k: Member)
    requires MembersInRange(rows, ms) && k in ms && k.keep && forall m :: m in ms && m.keep ==> m == k
    ensures k.idx < |rows| && KeeperTime(rows, ms) == BestTime(rows[k.idx])
  {
    hide BestTime;
    if ms[0].keep {
      assert ms[0] in ms;
    } else {
      assert k in ms[1..] && forall m :: m in ms[1..] ==> m in ms;
      KeeperTimeReads(rows, ms[1..], k);
    }
  }

  lemma KeeperOf(rows: seq<Row>, p: Params, all: seq<Group>, g: Group) returns (k: Member)
    requires IsFullList(rows, p, all) && g in all
    ensures MembersInRange(rows, g.members) && k in g.members && k.keep && k.idx < |rows|
    ensures forall m :: m in g.members && m.keep ==> m == k
    ensures KeeperTime(rows, g.members) == BestTime(rows[k.idx])
  {
    KeeperReads(rows, p, all, g);
    hide IsFullList, Better, BestTime, KeeperTime, Real;
    k :| k in g.members && k.keep && forall m :: m in g.members && m.keep ==> m == k;
    KeeperTimeReads(rows, g.members, k);
  }

  lemma MeasureReads(rows: seq<Row>, p: Params, all: seq<Group>, g: Group, h: Group)
    requires IsFullList(rows, p, all) && g in all && h in all
    ensures MembersInRange(rows, g.members) && MembersInRange(rows, h.members)
    ensures Outranks(rows, p, g, h) <==> Measure(rows, p.sort, g) > Measure(rows, p.sort, h)
  {
    hide IsFullList, Later, BestTime, KeeperTime;
    var k := KeeperOf(rows, p, all, g);
    var l := KeeperOf(rows, p, all, h);
    TimesRead(rows[k.idx], rows[l.idx]);
  }

  lemma FirstIdxReads(rows: seq<Row>, g: Group)
    requires MembersInRange(rows, g.members) && g.members != []
    ensures exists m :: m in g.members && m.idx == FirstIdx(rows, g)
    ensures forall m :: m in g.members ==> !LowerId(rows[m.idx], rows[FirstIdx(rows, g)])
    ensures FirstIdx(rows, g) < |rows|
  {
    var idxs: seq<nat> := seq(|g.members|, k requires 0 <= k < |g.members| => g.members[k].idx);
    var sorted := SortBy(idxs, RowKey(rows));
    SortBySorted(idxs, RowKey(rows));
    SortByElements(idxs, RowKey(rows));
    assert sorted[0] in sorted && sorted[0] == FirstIdx(rows, g);
    var at :| 0 <= at < |idxs| && idxs[at] == sorted[0];
    assert g.members[at] in g.members && g.members[at].idx == FirstIdx(rows, g);
    forall m | m in g.members ensures !LowerId(rows[m.idx], rows[FirstIdx(rows, g)]) {
      var x :| 0 <= x < |g.members| && g.members[x] == m;
      assert idxs[x] in idxs && idxs[x] in sorted;
      var y :| 0 <= y < |sorted| && sorted[y] == idxs[x];
      assert y > 0 ==> KeyLe(RowKey(rows)(sorted[0]), RowKey(rows)(sorted[y]));
    }
  }

  // Groups are listed by descending measure; where that ties, the one that starts at the
  // lower id first.
  lemma ListOrder(rows: seq<Row>, p: Params, all: seq<Group>, x: nat, y: nat)
    requires IsFullList(rows, p, all) && x < y < |all|
    ensures MembersInRange(rows, all[x].members) && MembersInRange(rows, all[y].members)
    ensures !Outranks(rows, p, all[y], all[x])
    ensures Outranks(rows, p, all[x], all[y]) || StartsEarlier(rows, all[x], all[y])
  {
    var g, h := all[x], all[y];
    assert g in all && h in all;
    MeasureReads(rows, p, all, g, h);
    MeasureReads(rows, p, all, h, g);
    NotEmpty(rows, p, all, g);
    NotEmpty(rows, p, all, h);
    FirstIdxReads(rows, g);
    FirstIdxReads(rows, h);
    assert KeyLt(GroupKey(rows, p)(g), GroupKey(rows, p)(h));
    hide IsFullList, Outranks, FirstIdx, Measure, Later;
    var i, j := FirstIdx(rows, g), FirstIdx(rows, h);
    if Measure(rows, p.sort, g) == Measure(rows, p.sort, h) {
      assert LowerId(rows[i], rows[j]);
      var m :| m in g.members && m.idx == i;
      forall n | n in h.members ensures LowerId(rows[m.idx], rows[n.idx]) {}
    }
  }

  lemma DistinctAt<T(!new)>(s: seq<T>, x: nat, y: nat)
    requires Distinct(s) && x < y < |s|
    ensures s[x] != s[y]
  {
  }

  lemma MembersSorted(rows: seq<Row>, p: Params, raw: Raw, g: Group, x: nat, y: nat)
    requires IsReported(rows, p, raw, g) && x < y < |g.members|
    ensures KeyLe(MemberKey(rows)(g.members[x]), MemberKey(rows)(g.members[y]))
  {
    hide *;
    var keeper, idxs, ms := BuildParts(rows, p, raw, g);
    SortBySorted(ms, MemberKey(rows));
    SortedAt(g.members, MemberKey(rows), x, y);
  }

  lemma SortedAt<T(!new)>(s: seq<T>, key: T -> Key, x: nat, y: nat)
    requires SortedBy(s, key) && x < y < |s|
    ensures KeyLe(key(s[x]), key(s[y]))
  {
  }

  lemma KeyOfMember(rows: seq<Row>, m: Member, n: Member)
    requires m.idx < |rows| && n.idx < |rows| && KeyLe(MemberKey(rows)(m), MemberKey(rows)(n))
    ensures n.keep ==> m.keep
    ensures m.keep == n.keep ==> !LowerId(rows[n.idx], rows[m.idx])
  {
  }

  // A group has one keeper.
  lemma OneKept(rows: seq<Row>, p: Params, raw: Raw, g: Group, x: nat, y: nat)
    requires IsReported(rows, p, raw, g) && x < y < |g.members| && g.members[x].keep
    ensures !g.members[y].keep
  {
    hide *;
    var keeper := BuiltShape(rows, p, raw, g);
    var m, n := g.members[x], g.members[y];
    assert m in g.members && n in g.members;
    assert m.idx < |rows| && n.idx < |rows| by { InRangeAt(rows, g.members, m); InRangeAt(rows, g.members, n); }
    assert keeper < |rows| by { RealInRange(rows, keeper); }
    MemberIdx(rows, p, raw.kind, keeper, m.idx);
    MemberIdx(rows, p, raw.kind, keeper, n.idx);
    MembersDistinct(rows, p, raw, g);
    DistinctAt(g.members, x, y);
  }

  lemma InRangeAt(rows: seq<Row>, ms: seq<Member>, m: Member)
    requires MembersInRange(rows, ms) && m in ms
    ensures m.idx < |rows|
  {
  }

  lemma RealInRange(rows: seq<Row>, i: nat)
    requires RealFile(rows, i)
    ensures i < |rows|
  {
  }

  // The members of a group: the keeper, then the others by ascending id.
  lemma MembersInOrder(rows: seq<Row>, p: Params, all: seq<Group>, g: Group, x: nat, y: nat)
    requires IsFullList(rows, p, all) && g in all && x < y < |g.members|
    ensures MembersInRange(rows, g.members) && g.members[x].idx < |rows| && g.members[y].idx < |rows|
    ensures !g.members[y].keep
    ensures g.members[x].keep || !LowerId(rows[g.members[y].idx], rows[g.members[x].idx])
  {
    var raw :| IsReported(rows, p, raw, g);
    hide IsReported, IsFullList, Build, IsRaw, KeepKey, MemberOf, MembersOf, SortBy, MemberKey, TallyOf, LowerId, KeyLe, RealFile;
    var keeper := BuiltShape(rows, p, raw, g);
    var m, n := g.members[x], g.members[y];
    assert m in g.members && n in g.members;
    MembersSorted(rows, p, raw, g, x, y);
    KeyOfMember(rows, m, n);
    if m.keep { OneKept(rows, p, raw, g, x, y); }
  }

  // The report lists the first `limit` groups, or all of them, numbered from 1.
  lemma ReportLists(rows: seq<Row>, p: Params, r: Report) returns (all: seq<Group>)
    requires IsReport(rows, p, r)
    ensures IsFullList(rows, p, all)
    ensures |r.groups| == if p.limitGroups.Some? && p.limitGroups.value < |all| then p.limitGroups.value else |all|
    ensures forall k :: 0 <= k < |r.groups| ==>
              var g := all[k];
              r.groups[k] == Group(k + 1, g.kind, g.maxDistance, g.reclaimable, g.reviewOnly, g.members)
  {
    hide IsFullList;
    all :| IsFullList(rows, p, all) && r.groups == Numbered(Truncated(all, p.limitGroups));
  }

  lemma NotEmpty(rows: seq<Row>, p: Params, all: seq<Group>, g: Group)
    requires IsFullList(rows, p, all) && g in all
    ensures g.members != []
  {
    var raw :| IsReported(rows, p, raw, g);
    hide IsReported, IsRaw, TallyOf, IsFullList, KeepKey;
    var keeper := BuiltShape(rows, p, raw, g);
  }
}
