/**
 Assembling the duplicate report (src/core/dedup.rs): near groups from the components of
 the perceptual search, exact groups from equal content hashes, one keeper per group, and
 the keeper-star rule that says which members may be removed.
 */
module Dedup {
  import opened Basics
  import opened Order
  import opened NearDup

  const NO_TIME := -0x8000_0000_0000_0000

  // A path is its UTF-8 bytes.
  datatype Row = Row(
    archiveId: int, fileId: int, path: seq<byte>, kind: string, size: nat,
    shadowed: bool, hardlink: bool,
    exif: Option<int>, mtime: Option<int>, archiveIndexed: Option<int>,
    contentHash: Option<nat>, phash: Option<Hash64>, width: Option<nat>, height: Option<nat>)

  datatype MatchKind = Near | Exact

  datatype SortKey = Wasted | Count | Newest

  // `marked` is the copy-marker test on path names, whose text rules are not modelled.
  datatype Params = Params(
    exact: bool, near: bool, threshold: nat, acrossOnly: bool,
    sort: SortKey, limitGroups: Option<nat>, bucketCap: nat, marked: seq<byte> -> bool)

  datatype Member = Member(idx: nat, hamming: Option<nat>, keep: bool, actionable: bool)

  datatype Group = Group(
    groupId: nat, kind: MatchKind, maxDistance: nat,
    reclaimable: nat, reviewOnly: nat, members: seq<Member>)

  datatype Tally = Tally(
    maxDistance: nat, reclaimable: nat, reviewOnly: nat,
    shadowedBytes: nat, duplicates: nat, transitiveOnly: nat)

  datatype Report = Report(groups: seq<Group>, totals: Tally, bucketsSkipped: nat)

  function BestTime(r: Row): int {
    if r.exif.Some? then r.exif.value
    else if r.mtime.Some? then r.mtime.value
    else if r.archiveIndexed.Some? then r.archiveIndexed.value
    else NO_TIME
  }

  // ----- rows searched perceptually

  predicate IsTrivial(h: Hash64) {
    var ones := Hamming(h, seq(64, _ => false));
    ones <= 1 || ones >= 63
  }

  predicate Searchable(r: Row) {
    r.kind == "image" && r.phash.Some? && !r.shadowed && !r.hardlink && !IsTrivial(r.phash.value)
  }

  function Images(rows: seq<Row>): (images: seq<nat>)
    ensures forall k :: 0 <= k < |images| ==> images[k] < |rows| && Searchable(rows[images[k]])
    ensures Ascending(images)
    ensures forall i: nat :: i < |rows| && Searchable(rows[i]) ==> i in images
  {
    var labels := seq(|rows|, i requires 0 <= i < |rows| => Searchable(rows[i]));
    IndicesOfMembers(labels, true, |rows|);
    var images := IndicesOf(labels, true, |rows|);
    assert forall k :: 0 <= k < |images| ==> images[k] in images;
    images
  }

  function LocalHashes(rows: seq<Row>): (hashes: seq<Hash64>)
    ensures |hashes| == |Images(rows)|
  {
    seq(|Images(rows)|, k requires 0 <= k < |Images(rows)| => rows[Images(rows)[k]].phash.value)
  }

  function Globals(rows: seq<Row>, c: seq<nat>): seq<nat>
    requires forall x :: x in c ==> x < |Images(rows)|
  {
    seq(|c|, k requires 0 <= k < |c| => assert c[k] in c; Images(rows)[c[k]])
  }

  // ----- raw groups

  datatype Raw = Raw(kind: MatchKind, idxs: seq<nat>)

  ghost predicate IsLocalClass(rows: seq<Row>, p: Params, c: seq<nat>) {
    IsClass(c, |LocalHashes(rows)|, FoundSet(LocalHashes(rows), p.threshold, p.bucketCap))
  }

  ghost predicate IsNearRaw(rows: seq<Row>, p: Params, raw: Raw) {
    p.near && raw.kind == Near && exists c :: IsLocalClass(rows, p, c) && raw.idxs == Globals(rows, c)
  }

  ghost predicate InNear(rows: seq<Row>, p: Params, i: nat) {
    exists raw :: IsNearRaw(rows, p, raw) && i in raw.idxs
  }

  // The content hash an exact group is formed on; none for a row already grouped perceptually.
  ghost function ExactLabels(rows: seq<Row>, p: Params): (labels: seq<Option<nat>>)
    ensures |labels| == |rows|
  {
    seq(|rows|, i requires 0 <= i < |rows| => if InNear(rows, p, i) then None else rows[i].contentHash)
  }

  predicate RealFile(rows: seq<Row>, i: nat) {
    i < |rows| && !rows[i].hardlink && !rows[i].shadowed
  }

  predicate Shadowed(rows: seq<Row>, i: nat) {
    i < |rows| && rows[i].shadowed
  }

  // Two real files, or one real file and a shadowed twin; hardlinks alone never form a group.
  predicate EnoughCopies(rows: seq<Row>, idxs: seq<nat>) {
    var files := |set i | i in idxs && RealFile(rows, i)|;
    var shadowed := |set i | i in idxs && Shadowed(rows, i)|;
    files >= 2 || (files >= 1 && shadowed >= 1)
  }

  ghost predicate IsExactRaw(rows: seq<Row>, p: Params, raw: Raw) {
    p.exact && raw.kind == Exact
    && exists h: nat :: IsExactOf(rows, p, raw.idxs, h)
  }

  ghost predicate IsExactOf(rows: seq<Row>, p: Params, idxs: seq<nat>, h: nat) {
    idxs == IndicesOf(ExactLabels(rows, p), Some(h), |rows|) && EnoughCopies(rows, idxs)
  }

  ghost predicate IsRaw(rows: seq<Row>, p: Params, raw: Raw) {
    IsNearRaw(rows, p, raw) || IsExactRaw(rows, p, raw)
  }

  ghost predicate InRange(rows: seq<Row>, idxs: seq<nat>) {
    forall i :: i in idxs ==> i < |rows|
  }

  // ----- keeper

  function KeyOfRow(rows: seq<Row>, i: nat): Key {
    if i < |rows| then Key(0, rows[i].archiveId, [], rows[i].fileId, 0) else Key(0, 0, [], 0, 0)
  }

  function RowKey(rows: seq<Row>): nat -> Key {
    (i: nat) => KeyOfRow(rows, i)
  }

  // (archive_id, file_id) is the catalogue's primary key.
  ghost predicate RowKeysDistinct(rows: seq<Row>) {
    forall i, j :: 0 <= i < j < |rows| ==> rows[i].archiveId != rows[j].archiveId || rows[i].fileId != rows[j].fileId
  }

  function OrZero(n: Option<nat>): nat {
    if n.Some? then n.value else 0
  }

  // Near: most pixels, then size, then newest. Exact: newest, then clean path, then shortest
  // path. Ties go to the lowest id.
  function KeepKey(rows: seq<Row>, p: Params, kind: MatchKind): nat -> Key {
    (i: nat) => if i >= |rows| then Key(0, 0, [], 0, 0) else
      var r := rows[i];
      var rank := if kind == Near then [OrZero(r.width) * OrZero(r.height), r.size, BestTime(r)]
                  else [BestTime(r), if p.marked(r.path) then 0 else 1, -|r.path|];
      Key(0, 0, rank + [-r.archiveId, -r.fileId], 0, 0)
  }

  function Eligible(rows: seq<Row>, idxs: seq<nat>): (e: seq<nat>)
    ensures forall i :: i in e <==> i in idxs && RealFile(rows, i)
  {
    if |idxs| == 0 then []
    else
      assert idxs == [idxs[0]] + idxs[1..];
      (if RealFile(rows, idxs[0]) then [idxs[0]] else []) + Eligible(rows, idxs[1..])
  }

  function PickKeep(rows: seq<Row>, p: Params, kind: MatchKind, idxs: seq<nat>): Option<nat> {
    var e := Eligible(rows, idxs);
    if |e| == 0 then None else Some(MaxBy(e, KeepKey(rows, p, kind)))
  }

  // ----- members: the keeper-star rule

  predicate IsActionable(kind: MatchKind, isKeep: bool, r: Row, hamming: Option<nat>, threshold: nat) {
    if isKeep || r.shadowed || r.hardlink then false
    else match kind
      case Exact => true
      case Near => hamming.Some? && hamming.value <= threshold
  }

  function MemberOf(rows: seq<Row>, p: Params, kind: MatchKind, keeper: nat, i: nat): Member
    requires keeper < |rows| && i < |rows|
  {
    var a, b := rows[keeper].phash, rows[i].phash;
    var hamming := if a.Some? && b.Some? && kind == Near then Some(Hamming(a.value, b.value))
                   else if kind == Exact then Some(0) else None;
    Member(i, hamming, i == keeper, IsActionable(kind, i == keeper, rows[i], hamming, p.threshold))
  }

  function MembersOf(rows: seq<Row>, p: Params, kind: MatchKind, keeper: nat, idxs: seq<nat>): (ms: seq<Member>)
    requires keeper < |rows| && InRange(rows, idxs)
    ensures |ms| == |idxs| && MembersInRange(rows, ms)
    ensures forall k :: 0 <= k < |ms| ==> idxs[k] < |rows| && ms[k] == MemberOf(rows, p, kind, keeper, idxs[k])
  {
    assert forall k :: 0 <= k < |idxs| ==> idxs[k] in idxs;
    seq(|idxs|, k requires 0 <= k < |idxs| => assert idxs[k] in idxs; MemberOf(rows, p, kind, keeper, idxs[k]))
  }

  function Max(a: nat, b: nat): nat {
    if a >= b then a else b
  }

  // What one member adds to the running totals.
  function AddMember(t: Tally, r: Row, m: Member): Tally {
    var t1 := t.(maxDistance := Max(t.maxDistance, OrZero(m.hamming)));
    if m.keep then t1
    else if r.shadowed then t1.(shadowedBytes := t1.shadowedBytes + r.size)
    else if r.hardlink then t1
    else if m.actionable then t1.(reclaimable := t1.reclaimable + r.size, duplicates := t1.duplicates + 1)
    else t1.(reviewOnly := t1.reviewOnly + r.size, transitiveOnly := t1.transitiveOnly + 1)
  }

  const ZERO := Tally(0, 0, 0, 0, 0, 0)

  ghost predicate MembersInRange(rows: seq<Row>, ms: seq<Member>) {
    forall m :: m in ms ==> m.idx < |rows|
  }

  function TallyOf(rows: seq<Row>, ms: seq<Member>): Tally
    requires MembersInRange(rows, ms)
  {
    if |ms| == 0 then ZERO
    else
      assert ms[0] in ms;
      AddMember(TallyOf(rows, ms[1..]), rows[ms[0].idx], ms[0])
  }

  function MemberKey(rows: seq<Row>): Member -> Key {
    (m: Member) => KeyOfRow(rows, m.idx).(rank := if m.keep then 0 else 1)
  }

  // ----- groups

  ghost predicate TwoArchives(rows: seq<Row>, idxs: seq<nat>)
    requires InRange(rows, idxs)
  {
    exists i, j :: i in idxs && j in idxs && rows[i].archiveId != rows[j].archiveId
  }

  ghost function Build(rows: seq<Row>, p: Params, raw: Raw): Option<Group>
    requires InRange(rows, raw.idxs)
  {
    var idxs := SortBy(raw.idxs, RowKey(rows));
    SortByElements(raw.idxs, RowKey(rows));
    var keeper := PickKeep(rows, p, raw.kind, idxs);
    if p.acrossOnly && !TwoArchives(rows, idxs) then None
    else if keeper.None? then None
    else
      var ms := MembersOf(rows, p, raw.kind, keeper.value, idxs);
      assert MembersInRange(rows, ms);
      var t := TallyOf(rows, ms);
      Some(Group(0, raw.kind, t.maxDistance, t.reclaimable, t.reviewOnly, SortBy(ms, MemberKey(rows))))
  }

  ghost predicate IsReported(rows: seq<Row>, p: Params, raw: Raw, g: Group) {
    IsRaw(rows, p, raw) && InRange(rows, raw.idxs) && Build(rows, p, raw) == Some(g)
  }

  // ----- tallies do not depend on member order

  lemma AddCommutes(t: Tally, r: Row, m: Member, r': Row, m': Member)
    ensures AddMember(AddMember(t, r, m), r', m') == AddMember(AddMember(t, r', m'), r, m)
  {
  }

  lemma {:induction false} TallySnoc(rows: seq<Row>, ms: seq<Member>, m: Member)
    requires MembersInRange(rows, ms + [m])
    ensures MembersInRange(rows, ms) && m.idx < |rows|
    ensures TallyOf(rows, ms + [m]) == AddMember(TallyOf(rows, ms), rows[m.idx], m)
  {
    hide AddMember;
    assert m in ms + [m];
    assert forall x :: x in ms ==> x in ms + [m];
    if |ms| > 0 {
      assert (ms + [m])[1..] == ms[1..] + [m];
      TallySnoc(rows, ms[1..], m);
      AddCommutes(TallyOf(rows, ms[1..]), rows[ms[0].idx], ms[0], rows[m.idx], m);
    } else {
      assert (ms + [m])[1..] == [];
    }
  }

  lemma {:induction false} TallyInsert(rows: seq<Row>, ms: seq<Member>, m: Member, key: Member -> Key)
    requires MembersInRange(rows, ms) && m.idx < |rows|
    ensures MembersInRange(rows, Insert(m, ms, key))
    ensures TallyOf(rows, Insert(m, ms, key)) == AddMember(TallyOf(rows, ms), rows[m.idx], m)
  {
    hide AddMember;
    InsertInRange(rows, ms, m, key);
    if |ms| > 0 && !KeyLe(key(m), key(ms[0])) {
      TallyInsert(rows, ms[1..], m, key);
      assert Insert(m, ms, key)[1..] == Insert(m, ms[1..], key);
      AddCommutes(TallyOf(rows, ms[1..]), rows[ms[0].idx], ms[0], rows[m.idx], m);
    } else {
      assert Insert(m, ms, key)[1..] == ms;
    }
  }

  lemma InsertInRange(rows: seq<Row>, ms: seq<Member>, m: Member, key: Member -> Key)
    requires MembersInRange(rows, ms) && m.idx < |rows|
    ensures MembersInRange(rows, Insert(m, ms, key))
  {
    forall x | x in Insert(m, ms, key) ensures x.idx < |rows| {
      assert x in multiset(Insert(m, ms, key));
    }
  }

  lemma {:induction false} TallySorted(rows: seq<Row>, ms: seq<Member>, key: Member -> Key)
    requires MembersInRange(rows, ms)
    ensures MembersInRange(rows, SortBy(ms, key))
    ensures TallyOf(rows, SortBy(ms, key)) == TallyOf(rows, ms)
  {
    SortByElements(ms, key);
    if |ms| > 0 {
      SortByElements(ms[1..], key);
      TallySorted(rows, ms[1..], key);
      TallyInsert(rows, SortBy(ms[1..], key), ms[0], key);
    }
  }

  // ----- raw groups are disjoint

  lemma GlobalsMembers(rows: seq<Row>, c: seq<nat>)
    requires Ascending(c) && forall x :: x in c ==> x < |Images(rows)|
    ensures InRange(rows, Globals(rows, c)) && Ascending(Globals(rows, c))
    ensures forall x :: x in c ==> Images(rows)[x] in Globals(rows, c)
    ensures forall i :: i in Globals(rows, c) ==> exists x :: x in c && Images(rows)[x] == i
  {
    var g := Globals(rows, c);
    forall x | x in c ensures Images(rows)[x] in g {
      var k :| 0 <= k < |c| && c[k] == x;
      assert g[k] == Images(rows)[x];
    }
    forall i | i in g ensures i < |rows| && exists x :: x in c && Images(rows)[x] == i {
      var k :| 0 <= k < |g| && g[k] == i;
      assert c[k] in c && Images(rows)[c[k]] == i;
    }
    forall k, l | 0 <= k < l < |g| ensures g[k] < g[l] {
      assert c[k] in c && c[l] in c && c[k] < c[l];
    }
  }

  lemma NearRawsDisjoint(rows: seq<Row>, p: Params, a: Raw, b: Raw, i: nat)
    requires IsNearRaw(rows, p, a) && IsNearRaw(rows, p, b) && i in a.idxs && i in b.idxs
    ensures a == b
  {
    var c :| IsLocalClass(rows, p, c) && a.idxs == Globals(rows, c);
    var d :| IsLocalClass(rows, p, d) && b.idxs == Globals(rows, d);
    GlobalsMembers(rows, c);
    GlobalsMembers(rows, d);
    var x :| x in c && Images(rows)[x] == i;
    var y :| y in d && Images(rows)[y] == i;
    assert x == y;
    LocalClassesDisjoint(rows, p, c, d, x);
  }

  lemma LocalClassesDisjoint(rows: seq<Row>, p: Params, c: seq<nat>, d: seq<nat>, x: nat)
    requires IsLocalClass(rows, p, c) && IsLocalClass(rows, p, d) && x in c && x in d
    ensures c == d
  {
    hide FoundSet, Connected;
    assert forall z: nat :: z in c <==> z in d;
    AscendingUnique(c, d);
  }

  lemma ExactMembers(rows: seq<Row>, p: Params, raw: Raw)
    requires IsExactRaw(rows, p, raw)
    ensures InRange(rows, raw.idxs) && Ascending(raw.idxs)
    ensures forall i, j :: i in raw.idxs && j in raw.idxs ==> rows[i].contentHash == rows[j].contentHash
    ensures forall i :: i in raw.idxs ==> rows[i].contentHash.Some? && !InNear(rows, p, i)
  {
    var h: nat :| IsExactOf(rows, p, raw.idxs, h);
    IndicesOfMembers(ExactLabels(rows, p), Some(h), |rows|);
    forall i | i in raw.idxs ensures rows[i].contentHash == Some(h) && !InNear(rows, p, i) {
      assert ExactLabels(rows, p)[i] == Some(h);
    }
  }

  // Every row lies in at most one group.
  lemma RawsDisjoint(rows: seq<Row>, p: Params, a: Raw, b: Raw, i: nat)
    requires IsRaw(rows, p, a) && IsRaw(rows, p, b) && i in a.idxs && i in b.idxs
    ensures a == b
  {
    if IsNearRaw(rows, p, a) && IsNearRaw(rows, p, b) {
      NearRawsDisjoint(rows, p, a, b, i);
    } else if IsNearRaw(rows, p, a) {
      assert InNear(rows, p, i);
      ExactMembers(rows, p, b);
    } else if IsNearRaw(rows, p, b) {
      assert InNear(rows, p, i);
      ExactMembers(rows, p, a);
    } else {
      var g: nat :| IsExactOf(rows, p, a.idxs, g);
      var h: nat :| IsExactOf(rows, p, b.idxs, h);
      IndicesOfMembers(ExactLabels(rows, p), Some(g), |rows|);
      IndicesOfMembers(ExactLabels(rows, p), Some(h), |rows|);
      assert ExactLabels(rows, p)[i] == Some(g) == Some(h);
    }
  }

  lemma RawShape(rows: seq<Row>, p: Params, raw: Raw)
    requires IsRaw(rows, p, raw)
    ensures InRange(rows, raw.idxs) && Ascending(raw.idxs) && exists i :: i in raw.idxs && RealFile(rows, i)
  {
    if IsNearRaw(rows, p, raw) {
      var c :| IsLocalClass(rows, p, c) && raw.idxs == Globals(rows, c);
      GlobalsMembers(rows, c);
      assert c[0] in c;
      var i := Images(rows)[c[0]];
      assert i in raw.idxs && RealFile(rows, i);
    } else {
      ExactMembers(rows, p, raw);
      var h: nat :| IsExactOf(rows, p, raw.idxs, h);
      var files := set i | i in raw.idxs && RealFile(rows, i);
      assert |files| >= 1;
      var i :| i in files;
    }
  }

  // ----- shape of a reported group

  lemma BuiltShape(rows: seq<Row>, p: Params, raw: Raw, g: Group) returns (keeper: nat)
    requires IsReported(rows, p, raw, g)
    ensures IsRaw(rows, p, raw) && InRange(rows, raw.idxs)
    ensures keeper in raw.idxs && RealFile(rows, keeper) && g.kind == raw.kind
    ensures forall i :: i in raw.idxs && RealFile(rows, i) ==>
              KeyLe(KeepKey(rows, p, raw.kind)(i), KeepKey(rows, p, raw.kind)(keeper))
    ensures MembersInRange(rows, g.members)
    ensures forall m :: m in g.members ==> m.idx in raw.idxs && m == MemberOf(rows, p, raw.kind, keeper, m.idx)
    ensures forall i :: i in raw.idxs ==> MemberOf(rows, p, raw.kind, keeper, i) in g.members
    ensures |g.members| == |raw.idxs| > 0
    ensures var t := TallyOf(rows, g.members);
            g.maxDistance == t.maxDistance && g.reclaimable == t.reclaimable && g.reviewOnly == t.reviewOnly
  {
    hide IsReported, IsRaw, MemberOf, MembersOf, TallyOf, SortBy, RealFile, RowKey, MemberKey, KeepKey;
    var idxs, ms;
    keeper, idxs, ms := BuildParts(rows, p, raw, g);
    SortByElements(raw.idxs, RowKey(rows));
    SortByElements(ms, MemberKey(rows));
    forall i | i in raw.idxs ensures MemberOf(rows, p, raw.kind, keeper, i) in g.members {
      assert i in idxs;
      var k :| 0 <= k < |idxs| && idxs[k] == i;
      assert ms[k] in ms;
    }
    forall m | m in g.members
      ensures m.idx in raw.idxs && m == MemberOf(rows, p, raw.kind, keeper, m.idx)
    {
      assert m in ms;
      var k :| 0 <= k < |ms| && ms[k] == m;
      assert idxs[k] in idxs;
      MemberIdx(rows, p, raw.kind, keeper, idxs[k]);
    }
  }

  lemma MemberIdx(rows: seq<Row>, p: Params, kind: MatchKind, keeper: nat, i: nat)
    requires keeper < |rows| && i < |rows|
    ensures MemberOf(rows, p, kind, keeper, i).idx == i && (MemberOf(rows, p, kind, keeper, i).keep <==> i == keeper)
  {
  }

  lemma BuildParts(rows: seq<Row>, p: Params, raw: Raw, g: Group) returns (keeper: nat, idxs: seq<nat>, ms: seq<Member>)
    requires IsReported(rows, p, raw, g)
    ensures IsRaw(rows, p, raw) && InRange(rows, raw.idxs) && |raw.idxs| > 0
    ensures idxs == SortBy(raw.idxs, RowKey(rows)) && InRange(rows, idxs)
    ensures keeper in idxs && keeper in raw.idxs && RealFile(rows, keeper)
    ensures forall i :: i in idxs && RealFile(rows, i) ==>
              KeyLe(KeepKey(rows, p, raw.kind)(i), KeepKey(rows, p, raw.kind)(keeper))
    ensures ms == MembersOf(rows, p, raw.kind, keeper, idxs)
    ensures g.kind == raw.kind && g.members == SortBy(ms, MemberKey(rows)) && MembersInRange(rows, g.members)
    ensures var t := TallyOf(rows, g.members);
            g.maxDistance == t.maxDistance && g.reclaimable == t.reclaimable && g.reviewOnly == t.reviewOnly
  {
    hide MemberOf, IsRaw, TallyOf, KeepKey;
    idxs := SortBy(raw.idxs, RowKey(rows));
    SortByElements(raw.idxs, RowKey(rows));
    keeper := PickKeep(rows, p, raw.kind, idxs).value;
    KeeperIsBest(rows, p, raw.kind, idxs);
    ms := MembersOf(rows, p, raw.kind, keeper, idxs);
    TallySorted(rows, ms, MemberKey(rows));
  }

  // ----- the whole report

  function FirstIdx(rows: seq<Row>, g: Group): nat {
    var idxs: seq<nat> := seq(|g.members|, k requires 0 <= k < |g.members| => g.members[k].idx);
    if |idxs| == 0 then 0 else SortBy(idxs, RowKey(rows))[0]
  }

  function KeeperTime(rows: seq<Row>, ms: seq<Member>): int {
    if |ms| == 0 then NO_TIME
    else if ms[0].keep then (if ms[0].idx < |rows| then BestTime(rows[ms[0].idx]) else NO_TIME)
    else KeeperTime(rows, ms[1..])
  }

  // Descending on the chosen measure, then ascending on the smallest row of the group.
  function GroupKey(rows: seq<Row>, p: Params): Group -> Key {
    (g: Group) => KeyOfRow(rows, FirstIdx(rows, g)).(rank := -Measure(rows, p.sort, g))
  }

  function Measure(rows: seq<Row>, sort: SortKey, g: Group): int {
    match sort
    case Wasted => g.reclaimable
    case Count => |g.members|
    case Newest => KeeperTime(rows, g.members)
  }

  ghost predicate AllInRange(rows: seq<Row>, gs: seq<Group>) {
    forall g :: g in gs ==> MembersInRange(rows, g.members)
  }

  function AddTotals(a: Tally, b: Tally): Tally {
    Tally(0, a.reclaimable + b.reclaimable, a.reviewOnly + b.reviewOnly, a.shadowedBytes + b.shadowedBytes,
          a.duplicates + b.duplicates, a.transitiveOnly + b.transitiveOnly)
  }

  function TotalsOf(rows: seq<Row>, gs: seq<Group>): Tally
    requires AllInRange(rows, gs)
  {
    if |gs| == 0 then ZERO
    else
      assert gs[0] in gs;
      AddTotals(TotalsOf(rows, gs[1..]), TallyOf(rows, gs[0].members))
  }

  function Numbered(gs: seq<Group>): seq<Group> {
    seq(|gs|, k requires 0 <= k < |gs| => gs[k].(groupId := k + 1))
  }

  function Truncated(gs: seq<Group>, limit: Option<nat>): seq<Group> {
    if limit.Some? && limit.value < |gs| then gs[..limit.value] else gs
  }

  ghost predicate IsFullList(rows: seq<Row>, p: Params, all: seq<Group>) {
    && AllInRange(rows, all)
    && StrictlySortedBy(all, GroupKey(rows, p))
    && forall g :: g in all <==> exists raw :: IsReported(rows, p, raw, g)
  }

  // The totals are taken over every group, the list only over the first `limit`.
  ghost predicate IsReport(rows: seq<Row>, p: Params, r: Report) {
    exists all :: IsFullList(rows, p, all)
      && r.groups == Numbered(Truncated(all, p.limitGroups))
      && r.totals == TotalsOf(rows, all)
      && r.bucketsSkipped == if p.near then SkippedBuckets(LocalHashes(rows), p.bucketCap, 4) else 0
  }

  // The report is a function of the rows and parameters: no hash-map order shows in it.
  lemma ReportUnique(rows: seq<Row>, p: Params, r: Report, r': Report)
    requires IsReport(rows, p, r) && IsReport(rows, p, r')
    ensures r == r'
  {
    var all :| IsFullList(rows, p, all)
      && r.groups == Numbered(Truncated(all, p.limitGroups)) && r.totals == TotalsOf(rows, all);
    var all' :| IsFullList(rows, p, all')
      && r'.groups == Numbered(Truncated(all', p.limitGroups)) && r'.totals == TotalsOf(rows, all');
    StrictUnique(all, all', GroupKey(rows, p));
  }

  lemma FirstIdxInGroup(rows: seq<Row>, p: Params, raw: Raw, g: Group)
    requires IsReported(rows, p, raw, g)
    ensures IsRaw(rows, p, raw) && InRange(rows, raw.idxs)
    ensures FirstIdx(rows, g) in raw.idxs
  {
    hide IsReported, IsRaw, MemberOf, TallyOf, RowKey;
    var keeper := BuiltShape(rows, p, raw, g);
    var idxs: seq<nat> := seq(|g.members|, k requires 0 <= k < |g.members| => g.members[k].idx);
    SortByElements(idxs, RowKey(rows));
    assert SortBy(idxs, RowKey(rows))[0] in SortBy(idxs, RowKey(rows));
    var k :| 0 <= k < |idxs| && idxs[k] == SortBy(idxs, RowKey(rows))[0];
    assert g.members[k] in g.members;
  }

  lemma GroupKeysDiffer(rows: seq<Row>, p: Params, a: Raw, b: Raw, g: Group, h: Group)
    requires RowKeysDistinct(rows) && a != b
    requires IsReported(rows, p, a, g) && IsReported(rows, p, b, h)
    ensures GroupKey(rows, p)(g) != GroupKey(rows, p)(h)
  {
    hide IsReported, IsRaw, FirstIdx, Measure;
    FirstIdxInGroup(rows, p, a, g);
    FirstIdxInGroup(rows, p, b, h);
    var i, j := FirstIdx(rows, g), FirstIdx(rows, h);
    if i == j { RawsDisjoint(rows, p, a, b, i); }
  }

  // ----- building the report

  method NearRaws(rows: seq<Row>, p: Params) returns (raws: seq<Raw>, inNear: seq<bool>, skipped: nat)
    requires p.near
    ensures Distinct(raws) && forall raw :: raw in raws <==> IsNearRaw(rows, p, raw)
    ensures |inNear| == |rows| && forall i :: 0 <= i < |rows| ==> (inNear[i] <==> InNear(rows, p, i))
    ensures skipped == SkippedBuckets(LocalHashes(rows), p.bucketCap, 4)
  {
    var hashes := LocalHashes(rows);
    var components;
    components, skipped := NearComponents(hashes, p.threshold, p.bucketCap);
    raws := [];
    inNear := seq(|rows|, _ => false);
    for k := 0 to |components|
      invariant |raws| == k && |inNear| == |rows|
      invariant forall c :: 0 <= c < k ==> IsLocalClass(rows, p, components[c]) && raws[c] == Raw(Near, Globals(rows, components[c]))
      invariant forall i :: 0 <= i < |rows| ==> (inNear[i] <==> exists c :: 0 <= c < k && i in raws[c].idxs)
    {
      var c := components[k];
      assert c in components && IsLocalClass(rows, p, c);
      GlobalsMembers(rows, c);
      var globals := Globals(rows, c);
      inNear := Marked(inNear, globals);
      raws := raws + [Raw(Near, globals)];
    }
    ClassesAreComponents(rows, p, components);
    forall raw ensures raw in raws <==> IsNearRaw(rows, p, raw) {
      if IsNearRaw(rows, p, raw) {
        var c :| IsLocalClass(rows, p, c) && raw.idxs == Globals(rows, c);
        var k :| 0 <= k < |components| && components[k] == c;
        assert raws[k] == raw;
      }
    }
    forall i, j | 0 <= i < j < |raws| ensures raws[i] != raws[j] {
      GlobalsInjective(rows, components[i], components[j]);
    }
  }

  // `marks` with the given positions set.
  method Marked(marks: seq<bool>, positions: seq<nat>) returns (r: seq<bool>)
    requires forall i :: i in positions ==> i < |marks|
    ensures |r| == |marks| && forall i :: 0 <= i < |r| ==> (r[i] <==> marks[i] || i in positions)
  {
    r := marks;
    for k := 0 to |positions|
      invariant |r| == |marks| && forall i :: 0 <= i < |r| ==> (r[i] <==> marks[i] || i in positions[..k])
    {
      assert positions[k] in positions;
      r := r[positions[k] := true];
    }
    assert positions[..|positions|] == positions;
  }

  lemma ClassesAreComponents(rows: seq<Row>, p: Params, components: seq<seq<nat>>)
    requires IsComponents(components, |LocalHashes(rows)|, FoundSet(LocalHashes(rows), p.threshold, p.bucketCap))
    ensures forall c :: IsLocalClass(rows, p, c) ==> c in components
    ensures Distinct(components)
  {
    hide FoundSet, Connected;
    forall c | IsLocalClass(rows, p, c) ensures c in components {
      assert c[0] in c && c[1] in c;
      var d :| d in components && c[0] in d;
      LocalClassesDisjoint(rows, p, c, d, c[0]);
    }
  }

  lemma GlobalsInjective(rows: seq<Row>, c: seq<nat>, d: seq<nat>)
    requires (forall x :: x in c ==> x < |Images(rows)|) && (forall x :: x in d ==> x < |Images(rows)|)
    requires c != d
    ensures Globals(rows, c) != Globals(rows, d)
  {
    if |c| == |d| {
      var k :| 0 <= k < |c| && c[k] != d[k];
      assert c[k] in c && d[k] in d;
      assert Globals(rows, c)[k] != Globals(rows, d)[k];
    }
  }

  method ExactRaws(rows: seq<Row>, p: Params, inNear: seq<bool>) returns (raws: seq<Raw>)
    requires p.exact
    requires |inNear| == |rows| && forall i :: 0 <= i < |rows| ==> (inNear[i] <==> InNear(rows, p, i))
    ensures Distinct(raws) && forall raw :: raw in raws <==> IsExactRaw(rows, p, raw)
  {
    var labels := seq(|rows|, i requires 0 <= i < |rows| => if inNear[i] then None else rows[i].contentHash);
    assert labels == ExactLabels(rows, p);
    var byHash := GroupIndices(labels);
    raws := CollectExact(rows, labels, byHash);
    hide ExactLabels, EnoughCopies, IsExactOf, IndicesOf;
    forall raw ensures raw in raws <==> IsExactRaw(rows, p, raw) {
      BucketIsExact(rows, p, labels, byHash, raw);
    }
  }

  lemma BucketIsExact(rows: seq<Row>, p: Params, labels: seq<Option<nat>>, byHash: map<Option<nat>, seq<nat>>, raw: Raw)
    requires p.exact && labels == ExactLabels(rows, p)
    requires forall l :: l in byHash <==> l in labels
    requires forall l :: l in byHash ==> byHash[l] == IndicesOf(labels, l, |labels|)
    ensures IsExactRaw(rows, p, raw) <==>
              exists h :: h in byHash && h.Some? && EnoughCopies(rows, byHash[h]) && raw == Raw(Exact, byHash[h])
  {
    hide EnoughCopies, IndicesOf;
    if h :| h in byHash && h.Some? && EnoughCopies(rows, byHash[h]) && raw == Raw(Exact, byHash[h]) {
      assert IsExactOf(rows, p, raw.idxs, h.value);
    }
    if IsExactRaw(rows, p, raw) {
      var h: nat :| IsExactOf(rows, p, raw.idxs, h);
      RawShape(rows, p, raw);
      var i :| i in raw.idxs;
      IndicesOfMembers(labels, Some(h), |rows|);
      assert labels[i] == Some(h) && Some(h) in byHash;
    }
  }

  // Hash buckets are visited in no particular order.
  method CollectExact(rows: seq<Row>, labels: seq<Option<nat>>, byHash: map<Option<nat>, seq<nat>>) returns (raws: seq<Raw>)
    requires forall l :: l in byHash <==> l in labels
    requires forall l :: l in byHash ==> byHash[l] == IndicesOf(labels, l, |labels|)
    ensures Distinct(raws)
    ensures forall raw :: raw in raws <==>
              exists h :: h in byHash && h.Some? && EnoughCopies(rows, byHash[h]) && raw == Raw(Exact, byHash[h])
  {
    hide EnoughCopies, IndicesOf;
    var todo := set h | h in byHash.Keys && h.Some?;
    raws := [];
    ghost var hs: seq<Option<nat>> := [];
    while todo != {}
      invariant |hs| == |raws|
      invariant forall h :: h in todo ==> h in byHash && h.Some?
      invariant forall k :: 0 <= k < |hs| ==> (
                  && hs[k] in byHash && hs[k].Some? && hs[k] !in todo
                  && EnoughCopies(rows, byHash[hs[k]]) && raws[k] == Raw(Exact, byHash[hs[k]]))
      invariant Distinct(hs)
      invariant forall h :: h in byHash && h.Some? && h !in todo && EnoughCopies(rows, byHash[h]) ==> h in hs
    {
      var h :| h in todo;
      todo := todo - {h};
      if EnoughCopies(rows, byHash[h]) {
        raws := raws + [Raw(Exact, byHash[h])];
        hs := hs + [h];
      }
    }
    forall i, j | 0 <= i < j < |raws| ensures raws[i] != raws[j] {
      BucketsDiffer(labels, byHash, hs[i], hs[j]);
    }
  }

  lemma BucketsDiffer(labels: seq<Option<nat>>, byHash: map<Option<nat>, seq<nat>>, g: Option<nat>, h: Option<nat>)
    requires g in byHash && h in byHash && g != h
    requires forall l :: l in byHash <==> l in labels
    requires forall l :: l in byHash ==> byHash[l] == IndicesOf(labels, l, |labels|)
    ensures byHash[g] != byHash[h]
  {
    IndicesOfMembers(labels, h, |labels|);
    IndicesOfMembers(labels, g, |labels|);
    var i :| 0 <= i < |labels| && labels[i] == h;
    assert i in byHash[h] && i !in byHash[g];
  }

  // One raw group; None when it is hidden by `across_only` or has no eligible keeper.
  method AssembleGroup(rows: seq<Row>, p: Params, raw: Raw) returns (g: Option<Group>, t: Tally)
    requires IsRaw(rows, p, raw) && InRange(rows, raw.idxs)
    ensures g == Build(rows, p, raw)
    ensures g.Some? ==> MembersInRange(rows, g.value.members) && t == TallyOf(rows, g.value.members)
  {
    var idxs := SortBy(raw.idxs, RowKey(rows));
    SortByElements(raw.idxs, RowKey(rows));
    t := ZERO;
    if p.acrossOnly {
      var archives := set i | i in idxs :: rows[i].archiveId;
      ArchiveCount(rows, idxs, archives);
      if |archives| < 2 { return None, t; }
    }
    var pick := PickKeep(rows, p, raw.kind, idxs);
    if pick.None? { return None, t; }
    var ms;
    ms, t := BuildMembers(rows, p, raw.kind, pick.value, idxs);
    TallySorted(rows, ms, MemberKey(rows));
    g := Some(Group(0, raw.kind, t.maxDistance, t.reclaimable, t.reviewOnly, SortBy(ms, MemberKey(rows))));
  }

  method BuildMembers(rows: seq<Row>, p: Params, kind: MatchKind, keeper: nat, idxs: seq<nat>) returns (ms: seq<Member>, t: Tally)
    requires keeper < |rows| && InRange(rows, idxs)
    ensures ms == MembersOf(rows, p, kind, keeper, idxs)
    ensures MembersInRange(rows, ms) && t == TallyOf(rows, ms)
  {
    hide MemberOf, AddMember;
    ghost var all := MembersOf(rows, p, kind, keeper, idxs);
    ms, t := [], ZERO;
    for k := 0 to |idxs|
      invariant ms == all[..k] && MembersInRange(rows, ms)
      invariant t == TallyOf(rows, ms)
    {
      assert idxs[k] in idxs;
      var m := MemberOf(rows, p, kind, keeper, idxs[k]);
      assert all[k] in all;
      assert all[..k + 1] == all[..k] + [m];
      TallySnoc(rows, ms, m);
      t := AddMember(t, rows[m.idx], m);
      ms := ms + [m];
    }
  }

  lemma ArchiveCount(rows: seq<Row>, idxs: seq<nat>, archives: set<int>)
    requires InRange(rows, idxs) && archives == set i | i in idxs :: rows[i].archiveId
    ensures |archives| >= 2 <==> TwoArchives(rows, idxs)
  {
    if |archives| >= 2 {
      var a :| a in archives;
      assert |archives - {a}| >= 1;
      var b :| b in archives - {a};
    }
    if TwoArchives(rows, idxs) {
      var i, j :| i in idxs && j in idxs && rows[i].archiveId != rows[j].archiveId;
      assert {rows[i].archiveId, rows[j].archiveId} <= archives;
      SubsetSize({rows[i].archiveId, rows[j].archiveId}, archives);
    }
  }

  lemma TotalsOfNone(rows: seq<Row>)
    ensures TotalsOf(rows, []) == ZERO
  {
  }

  lemma {:induction false} TotalsSnoc(rows: seq<Row>, gs: seq<Group>, g: Group)
    requires AllInRange(rows, gs) && MembersInRange(rows, g.members)
    ensures AllInRange(rows, gs + [g])
    ensures TotalsOf(rows, gs + [g]) == AddTotals(TotalsOf(rows, gs), TallyOf(rows, g.members))
  {
    hide TallyOf;
    if |gs| > 0 {
      assert (gs + [g])[1..] == gs[1..] + [g];
      TotalsSnoc(rows, gs[1..], g);
    } else {
      assert (gs + [g])[1..] == [];
    }
  }

  lemma {:induction false} TotalsInsert(rows: seq<Row>, gs: seq<Group>, g: Group, key: Group -> Key)
    requires AllInRange(rows, gs) && MembersInRange(rows, g.members)
    ensures AllInRange(rows, Insert(g, gs, key))
    ensures TotalsOf(rows, Insert(g, gs, key)) == AddTotals(TotalsOf(rows, gs), TallyOf(rows, g.members))
  {
    hide TallyOf;
    forall x | x in Insert(g, gs, key) ensures MembersInRange(rows, x.members) {
      assert x in multiset(Insert(g, gs, key));
    }
    if |gs| > 0 && !KeyLe(key(g), key(gs[0])) {
      TotalsInsert(rows, gs[1..], g, key);
      assert Insert(g, gs, key)[1..] == Insert(g, gs[1..], key);
    } else {
      assert Insert(g, gs, key)[1..] == gs;
    }
  }

  lemma {:induction false} TotalsSorted(rows: seq<Row>, gs: seq<Group>, key: Group -> Key)
    requires AllInRange(rows, gs)
    ensures AllInRange(rows, SortBy(gs, key))
    ensures TotalsOf(rows, SortBy(gs, key)) == TotalsOf(rows, gs)
  {
    SortByElements(gs, key);
    if |gs| > 0 {
      SortByElements(gs[1..], key);
      TotalsSorted(rows, gs[1..], key);
      TotalsInsert(rows, SortBy(gs[1..], key), gs[0], key);
    }
  }

  method RunDedup(rows: seq<Row>, p: Params) returns (r: Result<Report>)
    requires RowKeysDistinct(rows)
    ensures r.Err? <==> p.threshold > MAX_THRESHOLD
    ensures r.Ok? ==> IsReport(rows, p, r.value)
  {
    if p.threshold > MAX_THRESHOLD { return Err; }
    var raws: seq<Raw>, skipped := [], 0;
    var inNear := seq(|rows|, _ => false);
    if p.near {
      raws, inNear, skipped := NearRaws(rows, p);
    }
    if p.exact {
      var exacts := ExactRaws(rows, p, inNear);
      assert forall a :: a in raws ==> a.kind == Near;
      assert forall b :: b in exacts ==> b.kind == Exact;
      DistinctConcat(raws, exacts);
      raws := raws + exacts;
    }
    var groups, totals := AssembleAll(rows, p, raws);
    groups := SortBy(groups, GroupKey(rows, p));
    var report := Report(Numbered(Truncated(groups, p.limitGroups)), totals, skipped);
    assert IsReport(rows, p, report);
    r := Ok(report);
  }

  method AssembleAll(rows: seq<Row>, p: Params, raws: seq<Raw>) returns (groups: seq<Group>, totals: Tally)
    requires RowKeysDistinct(rows)
    requires Distinct(raws) && forall raw :: raw in raws <==> IsRaw(rows, p, raw)
    ensures IsFullList(rows, p, SortBy(groups, GroupKey(rows, p)))
    ensures totals == TotalsOf(rows, SortBy(groups, GroupKey(rows, p)))
  {
    hide Build, IsRaw, TallyOf, TotalsOf, AddTotals, GroupKey, SortBy, RealFile, MembersInRange;
    groups, totals := [], ZERO;
    TotalsOfNone(rows);
    ghost var kept: seq<Raw> := [];
    for k := 0 to |raws|
      invariant |kept| == |groups| && AllInRange(rows, groups) && totals == TotalsOf(rows, groups)
      invariant Distinct(kept) && forall raw :: raw in kept ==> raw in raws[..k]
      invariant forall j :: 0 <= j < |kept| ==> IsReported(rows, p, kept[j], groups[j])
      invariant forall raw, g :: raw in raws[..k] && IsReported(rows, p, raw, g) ==> g in groups
    {
      var raw := raws[k];
      assert raw in raws && IsRaw(rows, p, raw);
      RawShape(rows, p, raw);
      var g, t := AssembleGroup(rows, p, raw);
      assert raws[..k + 1] == raws[..k] + [raw];
      if g.Some? {
        assert raw !in raws[..k];
        TotalsSnoc(rows, groups, g.value);
        kept := kept + [raw];
        groups := groups + [g.value];
        totals := AddTotals(totals, t);
      }
    }
    assert raws[..|raws|] == raws;
    var key := GroupKey(rows, p);
    forall i, j | 0 <= i < j < |groups| ensures key(groups[i]) != key(groups[j]) {
      GroupKeysDiffer(rows, p, kept[i], kept[j], groups[i], groups[j]);
    }
    SortByStrict(groups, key);
    SortByElements(groups, key);
    TotalsSorted(rows, groups, key);
    forall g ensures g in groups <==> exists raw :: IsReported(rows, p, raw, g) {
      if g in groups {
        var j :| 0 <= j < |groups| && groups[j] == g;
        assert IsReported(rows, p, kept[j], g);
      }
    }
  }

  // ----- main results

  // The keeper is the greatest eligible member under the keep policy.
  lemma KeeperIsBest(rows: seq<Row>, p: Params, kind: MatchKind, idxs: seq<nat>)
    ensures match PickKeep(rows, p, kind, idxs)
            case None => forall i :: i in idxs ==> !RealFile(rows, i)
            case Some(k) =>
              && k in idxs && RealFile(rows, k)
              && forall i :: i in idxs && RealFile(rows, i) ==> KeyLe(KeepKey(rows, p, kind)(i), KeepKey(rows, p, kind)(k))
  {
    var e := Eligible(rows, idxs);
    if |e| > 0 {
      MaxByGreatest(e, KeepKey(rows, p, kind));
    } else {
      assert forall i :: i in idxs ==> i in e || !RealFile(rows, i);
    }
  }

  // A raw group is dropped only for lying in a single archive: a keeper always exists.
  lemma OnlyAcrossHides(rows: seq<Row>, p: Params, raw: Raw)
    requires IsRaw(rows, p, raw) && InRange(rows, raw.idxs)
    ensures Build(rows, p, raw).None? <==> p.acrossOnly && !TwoArchives(rows, raw.idxs)
  {
    RawShape(rows, p, raw);
    var idxs := SortBy(raw.idxs, RowKey(rows));
    SortByElements(raw.idxs, RowKey(rows));
    KeeperIsBest(rows, p, raw.kind, idxs);
    assert TwoArchives(rows, idxs) <==> TwoArchives(rows, raw.idxs);
  }

  ghost predicate Removed(gs: seq<Group>, i: nat) {
    exists g, m :: g in gs && m in g.members && m.idx == i && m.actionable
  }

  // Two members of listed groups that are the same row are the same member.
  lemma OneGroupPerRow(rows: seq<Row>, p: Params, all: seq<Group>, g: Group, h: Group, m: Member, n: Member)
    requires IsFullList(rows, p, all) && g in all && h in all
    requires m in g.members && n in h.members && m.idx == n.idx
    ensures g == h && m == n
  {
    var a :| IsReported(rows, p, a, g);
    var b :| IsReported(rows, p, b, h);
    var k := BuiltShape(rows, p, a, g);
    var l := BuiltShape(rows, p, b, h);
    RawsDisjoint(rows, p, a, b, m.idx);
  }

  // Why a removable row is redundant: its keeper stands, and their contents agree by hash
  // or were measured within the threshold of each other.
  ghost predicate Justified(rows: seq<Row>, p: Params, kind: MatchKind, keeper: nat, i: nat) {
    && RealFile(rows, keeper) && i < |rows| && i != keeper
    && match kind
       case Exact => rows[keeper].contentHash.Some? && rows[keeper].contentHash == rows[i].contentHash
       case Near => rows[keeper].phash.Some? && rows[i].phash.Some?
                    && Hamming(rows[keeper].phash.value, rows[i].phash.value) <= p.threshold
  }

  // Removing every actionable member of every group at once never removes a keeper.
  lemma RemovalIsSafe(rows: seq<Row>, p: Params, all: seq<Group>, g: Group, m: Member)
    requires IsFullList(rows, p, all) && g in all && m in g.members && m.actionable
    ensures exists k :: k in g.members && k.keep && !Removed(all, k.idx) && Justified(rows, p, g.kind, k.idx, m.idx)
  {
    hide IsReported, TallyOf, IsRaw, Hamming;
    var raw :| IsReported(rows, p, raw, g);
    var keeper := BuiltShape(rows, p, raw, g);
    var k := MemberOf(rows, p, raw.kind, keeper, keeper);
    assert k in g.members && k.keep && !k.actionable;
    if Removed(all, keeper) {
      var h, n :| h in all && n in h.members && n.idx == keeper && n.actionable;
      OneGroupPerRow(rows, p, all, g, h, k, n);
      assert false;
    }
    if raw.kind == Exact { ExactRawIsExact(rows, p, raw); ExactMembers(rows, p, raw); }
    assert Justified(rows, p, g.kind, k.idx, m.idx);
  }

  lemma ExactRawIsExact(rows: seq<Row>, p: Params, raw: Raw)
    requires IsRaw(rows, p, raw) && raw.kind == Exact
    ensures IsExactRaw(rows, p, raw)
  {
  }

  // ----- bytes

  datatype Share = Kept | Reclaimable | ReviewOnly | ShadowTwin | LinkAlias

  function ShareOf(r: Row, m: Member): Share {
    if m.keep then Kept
    else if r.shadowed then ShadowTwin
    else if r.hardlink then LinkAlias
    else if m.actionable then Reclaimable
    else ReviewOnly
  }

  ghost function BytesIn(rows: seq<Row>, ms: seq<Member>, shares: set<Share>): nat
    requires MembersInRange(rows, ms)
  {
    if |ms| == 0 then 0
    else
      assert ms[0] in ms;
      BytesIn(rows, ms[1..], shares) + (if ShareOf(rows[ms[0].idx], ms[0]) in shares then rows[ms[0].idx].size else 0)
  }

  lemma {:induction false} TallyIsBytes(rows: seq<Row>, ms: seq<Member>)
    requires MembersInRange(rows, ms)
    ensures TallyOf(rows, ms).reclaimable == BytesIn(rows, ms, {Reclaimable})
    ensures TallyOf(rows, ms).reviewOnly == BytesIn(rows, ms, {ReviewOnly})
    ensures TallyOf(rows, ms).shadowedBytes == BytesIn(rows, ms, {ShadowTwin})
    ensures BytesIn(rows, ms, {Kept, Reclaimable, ReviewOnly, ShadowTwin, LinkAlias})
         == BytesIn(rows, ms, {Kept}) + BytesIn(rows, ms, {Reclaimable}) + BytesIn(rows, ms, {ReviewOnly})
          + BytesIn(rows, ms, {ShadowTwin}) + BytesIn(rows, ms, {LinkAlias})
  {
    if |ms| > 0 { TallyIsBytes(rows, ms[1..]); }
  }

  lemma {:induction false} KeptOnce(rows: seq<Row>, ms: seq<Member>, k: nat)
    requires MembersInRange(rows, ms) && k < |ms| && ms[k].keep
    requires forall j :: 0 <= j < |ms| && j != k ==> !ms[j].keep
    ensures BytesIn(rows, ms, {Kept}) == rows[ms[k].idx].size
  {
    if k == 0 {
      NothingKept(rows, ms[1..]);
    } else {
      KeptOnce(rows, ms[1..], k - 1);
    }
  }

  lemma {:induction false} NothingKept(rows: seq<Row>, ms: seq<Member>)
    requires MembersInRange(rows, ms) && forall j :: 0 <= j < |ms| ==> !ms[j].keep
    ensures BytesIn(rows, ms, {Kept}) == 0
  {
    if |ms| > 0 { NothingKept(rows, ms[1..]); }
  }

  ghost function TotalSize(rows: seq<Row>, ms: seq<Member>): nat
    requires MembersInRange(rows, ms)
  {
    if |ms| == 0 then 0 else assert ms[0] in ms; TotalSize(rows, ms[1..]) + rows[ms[0].idx].size
  }

  lemma {:induction false} SharesCover(rows: seq<Row>, ms: seq<Member>)
    requires MembersInRange(rows, ms)
    ensures TotalSize(rows, ms) == BytesIn(rows, ms, {Kept, Reclaimable, ReviewOnly, ShadowTwin, LinkAlias})
  {
    if |ms| > 0 { SharesCover(rows, ms[1..]); }
  }

  lemma MembersDistinct(rows: seq<Row>, p: Params, raw: Raw, g: Group)
    requires IsReported(rows, p, raw, g)
    ensures Distinct(g.members)
  {
    hide IsReported, TallyOf;
    var keeper, idxs, ms := BuildParts(rows, p, raw, g);
    RawShape(rows, p, raw);
    SortKeepsDistinct(raw.idxs, RowKey(rows));
    forall j, k | 0 <= j < k < |ms| ensures ms[j] != ms[k] {
      assert ms[j].idx == idxs[j] && ms[k].idx == idxs[k];
    }
    SortKeepsDistinct(ms, MemberKey(rows));
  }

  // Every byte of a group is the keeper's, reclaimable, for review, a shadowed twin's, or
  // behind an unshadowed hardlink.
  lemma BytesConserved(rows: seq<Row>, p: Params, raw: Raw, g: Group)
    requires IsReported(rows, p, raw, g)
    ensures MembersInRange(rows, g.members)
    ensures exists k :: k in g.members && k.keep
              && TotalSize(rows, g.members) == rows[k.idx].size + g.reclaimable + g.reviewOnly
                 + BytesIn(rows, g.members, {ShadowTwin}) + BytesIn(rows, g.members, {LinkAlias})
  {
    hide IsReported, TallyOf, BytesIn, TotalSize;
    var keeper := BuiltShape(rows, p, raw, g);
    MembersDistinct(rows, p, raw, g);
    var k := MemberOf(rows, p, raw.kind, keeper, keeper);
    assert k in g.members;
    var at :| 0 <= at < |g.members| && g.members[at] == k;
    forall j | 0 <= j < |g.members| && j != at ensures !g.members[j].keep {
      assert g.members[j] in g.members;
      assert g.members[j] != g.members[at];
    }
    KeptOnce(rows, g.members, at);
    TallyIsBytes(rows, g.members);
    SharesCover(rows, g.members);
  }

  // A chain of close pairs can carry an image beyond the threshold: such a member is listed
  // for review, never for removal.
  lemma TransitiveOnlyIsNeverActionable(rows: seq<Row>, p: Params, all: seq<Group>, g: Group, m: Member)
    requires IsFullList(rows, p, all) && g in all && m in g.members && g.kind == Near
    ensures exists k :: k in g.members && k.keep && k.idx < |rows| && m.idx < |rows|
              && rows[k.idx].phash.Some? && rows[m.idx].phash.Some?
              && (m.actionable <==> m != k && Hamming(rows[k.idx].phash.value, rows[m.idx].phash.value) <= p.threshold)
  {
    hide IsReported, TallyOf, IsRaw, Hamming, IsTrivial, InNear;
    var raw :| IsReported(rows, p, raw, g);
    var keeper := BuiltShape(rows, p, raw, g);
    var k := MemberOf(rows, p, raw.kind, keeper, keeper);
    assert k in g.members && k.keep;
    NearMembersSearchable(rows, p, raw, keeper);
    NearMembersSearchable(rows, p, raw, m.idx);
  }

  lemma NearMembersSearchable(rows: seq<Row>, p: Params, raw: Raw, i: nat)
    requires IsRaw(rows, p, raw) && raw.kind == Near && i in raw.idxs
    ensures i < |rows| && Searchable(rows[i])
  {
    var c :| IsLocalClass(rows, p, c) && raw.idxs == Globals(rows, c);
    GlobalsMembers(rows, c);
  }
}
