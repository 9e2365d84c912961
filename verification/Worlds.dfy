/**
 What the sources may really hold, given what was observed of them: a possible-worlds
 reading of the coverage evidence (src/core/coverage.rs, src/core/coverage_input.rs).
 */
module Worlds {
  import opened Basics
  import opened Order
  import opened Coverage

  // An effective regular file of a source: one that was observed, or one that was not.
  datatype FileKey = Observed(fileId: int) | Hidden(n: nat)

  // The content hash of every effective regular file of every source, and the length of
  // every content.
  datatype World = World(length: nat -> nat, files: map<int, map<FileKey, nat>>)

  // A file whose row is the last at its exact path; a lossy name is not an exact path.
  predicate EffectiveFile(rows: set<Row>, r: Row) {
    r.entry == File
    && (r.lossyName || forall o :: o in rows && !o.lossyName && o.path == r.path ==> o.fileId <= r.fileId)
  }

  // The recorded hash is that of the content.
  predicate Vouched(r: Row) {
    r.hash.Some? && !r.readError && !r.paxUnparsed && !r.lossyName
  }

  // The recorded size is the content's length.
  predicate Sized(r: Row) {
    r.size.Some? && !r.sparse && !r.paxUnparsed && !r.readError
  }

  // Content h is compatible with what row r recorded.
  ghost predicate Agrees(w: World, r: Row, h: nat) {
    && (Vouched(r) ==> r.hash.value == h)
    && (Sized(r) ==> w.length(h) == r.size.value)
  }

  // Rows of a reachable source are real; a complete source holds nothing else. A row with a
  // lossy name may have been shadowed by another of that rendering, so it need not be there.
  ghost predicate Respects(w: World, c: Catalog)
    requires c.info.id in w.files
  {
    var files := w.files[c.info.id];
    c.info.evidence == Unavailable || c.info.evidence == Unreachable ||
    (&& (forall r :: r in c.rows && EffectiveFile(c.rows, r) && !r.lossyName ==> Observed(r.fileId) in files)
     && (forall r :: r in c.rows && EffectiveFile(c.rows, r) && Observed(r.fileId) in files ==> Agrees(w, r, files[Observed(r.fileId)]))
     && (forall k :: k in files && k.Observed? ==> exists r :: r in c.rows && EffectiveFile(c.rows, r) && r.fileId == k.fileId)
     && (c.info.evidence == Complete ==> forall k :: k in files ==> k.Observed?))
  }

  // A content's length does not depend on where, or when, it was seen.
  ghost predicate LengthsAgree(w: World, cs: set<Catalog>) {
    forall c, r :: c in cs && r in c.rows && EffectiveFile(c.rows, r) && Vouched(r) && Sized(r) ==>
      w.length(r.hash.value) == r.size.value
  }

  ghost predicate Possible(w: World, cs: set<Catalog>) {
    && LengthsAgree(w, cs)
    && forall c :: c in cs ==> c.info.id in w.files && Respects(w, c)
  }

  ghost function Holding(w: World, id: int, h: nat): set<FileKey>
    requires id in w.files
  {
    set k | k in w.files[id] && w.files[id][k] == h
  }

  ghost predicate Holds(w: World, id: int, h: nat) {
    id in w.files && Holding(w, id, h) != {}
  }

  // Sources that really hold the content.
  ghost function Holders(w: World, cs: set<Catalog>, h: nat): set<int> {
    set c | c in cs && Holds(w, c.info.id, h) :: c.info.id
  }

  ghost function GroupSize(cs: set<Catalog>, h: nat): Option<nat> {
    OnlySize(SizesOf(AllItems(cs), h))
  }

  // What the engine calls a copy, and which size it trusts, in the terms above.
  lemma EvidenceReads(rows: set<Row>, r: Row)
    ensures forall h: nat :: IsCopy(rows, r, h) <==> EffectiveFile(rows, r) && Vouched(r) && r.hash == Some(h)
    ensures EffectiveFile(rows, r) <==> r.entry == File && !Shadowed(rows, r)
    ensures TrustedSize(r) == if Sized(r) then r.size else None
  {
  }

  // ----- soundness of presence

  lemma GroupSizeIsLength(w: World, cs: set<Catalog>, h: nat)
    requires LengthsAgree(w, cs) && GroupSize(cs, h).Some?
    ensures w.length(h) == GroupSize(cs, h).value
  {
    var n := GroupSize(cs, h).value;
    assert n in SizesOf(AllItems(cs), h);
    var i :| i in AllItems(cs) && FateOf(i.0.rows, i.1) == Copy(h) && TrustedSize(i.1) == Some(n);
    assert IsCopy(i.0.rows, i.1, h);
  }

  lemma AbsentMeansNone(w: World, cs: set<Catalog>, c: Catalog, h: nat)
    requires Possible(w, cs) && c in cs && PresenceOf(c, h, GroupSize(cs, h)) == Absent
    ensures !Holds(w, c.info.id, h)
  {
    var size := GroupSize(cs, h);
    var files := w.files[c.info.id];
    forall k | k in files ensures files[k] != h {
      var r :| r in c.rows && EffectiveFile(c.rows, r) && r.fileId == k.fileId;
      assert Agrees(w, r, files[k]);
      if FateOf(c.rows, r).Copy? {
        assert IsCopy(c.rows, r, FateOf(c.rows, r).hash);
        assert FateOf(c.rows, r) == Copy(h) ==> r in CopiesIn(c, h);
      } else {
        if size.Some? { GroupSizeIsLength(w, cs, h); }
        assert CouldBe(r, size) ==> r in Suspects(c, size);
      }
    }
  }

  lemma PresentMeansThatMany(w: World, cs: set<Catalog>, c: Catalog, h: nat)
    requires Identified(cs) && Possible(w, cs) && c in cs && PresenceOf(c, h, GroupSize(cs, h)).Present?
    requires c.info.evidence == Unavailable ==> c.rows == {}
    ensures |Holding(w, c.info.id, h)| >= PresenceOf(c, h, GroupSize(cs, h)).copies > 0
  {
    var copies := CopiesIn(c, h);
    CopiesAreHeld(w, cs, c, h);
    var image := set r | r in copies :: Observed(r.fileId);
    ImageSize(copies, (r: Row) => Observed(r.fileId), image);
    SubsetSize(image, Holding(w, c.info.id, h));
    hide FateOf, TrustedSize, Respects, LengthsAgree;
  }

  lemma CopiesAreHeld(w: World, cs: set<Catalog>, c: Catalog, h: nat)
    requires Possible(w, cs) && c in cs && PresenceOf(c, h, GroupSize(cs, h)).Present?
    requires c.info.evidence == Unavailable ==> c.rows == {}
    ensures forall r :: r in CopiesIn(c, h) ==> Observed(r.fileId) in Holding(w, c.info.id, h)
  {
    var files := w.files[c.info.id];
    forall r | r in CopiesIn(c, h) ensures Observed(r.fileId) in Holding(w, c.info.id, h) {
      assert IsCopy(c.rows, r, h) && EffectiveFile(c.rows, r);
      assert Agrees(w, r, files[Observed(r.fileId)]);
    }
  }

  // ----- soundness of replica counts

  // Sources whose listed presence satisfies a test.
  ghost function Where(g: ContentGroup, test: Presence -> bool): set<int> {
    set p | p in g.presence && test(p.presence) :: p.sourceId
  }

  ghost predicate AcceptedUnavailable(cs: set<Catalog>) {
    forall c :: c in cs && c.info.evidence == Unavailable ==> c.rows == {}
  }

  lemma PresenceListed(cov: Coverage, cs: set<Catalog>, g: ContentGroup, p: SourcePresence) returns (c: Catalog)
    requires IsCoverage(cov, cs) && g in cov.groups && p in g.presence
    ensures c in cs && p == SourcePresence(c.info.id, PresenceOf(c, g.hash, GroupSize(cs, g.hash)))
  {
    assert IsGroup(g, cs, cov.sources);
    var k :| 0 <= k < |g.presence| && g.presence[k] == p;
    assert cov.sources[k] in cov.sources;
    c :| c in cs && c.info == cov.sources[k];
  }

  lemma PresenceOfSource(cov: Coverage, cs: set<Catalog>, g: ContentGroup, c: Catalog)
    requires IsCoverage(cov, cs) && g in cov.groups && c in cs
    ensures SourcePresence(c.info.id, PresenceOf(c, g.hash, GroupSize(cs, g.hash))) in g.presence
  {
    assert IsGroup(g, cs, cov.sources);
    assert c.info in cov.sources;
    var k :| 0 <= k < |cov.sources| && cov.sources[k] == c.info;
    assert g.presence[k] in g.presence;
  }

  predicate IsPresent(p: Presence) { p.Present? }

  // Present sources hold the content; if none is unknown, only they do.
  lemma PresentAreHolders(w: World, cov: Coverage, cs: set<Catalog>, g: ContentGroup)
    requires Identified(cs) && AcceptedUnavailable(cs) && Possible(w, cs) && IsCoverage(cov, cs) && g in cov.groups
    ensures Where(g, IsPresent) <= Holders(w, cs, g.hash)
    ensures !AnyUnknown(g.presence) ==> Where(g, IsPresent) == Holders(w, cs, g.hash)
  {
    hide IsCoverage, Identified, Possible, PresenceOf, Holding;
    forall id | id in Where(g, IsPresent) ensures id in Holders(w, cs, g.hash) {
      var p :| p in g.presence && p.presence.Present? && p.sourceId == id;
      var c := PresenceListed(cov, cs, g, p);
      PossibleHasFiles(w, cs, c);
      PresentMeansThatMany(w, cs, c, g.hash);
    }
    if !AnyUnknown(g.presence) {
      forall id | id in Holders(w, cs, g.hash) ensures id in Where(g, IsPresent) {
        var c :| c in cs && Holds(w, c.info.id, g.hash) && c.info.id == id;
        PresenceOfSource(cov, cs, g, c);
        if PresenceOf(c, g.hash, GroupSize(cs, g.hash)) == Absent {
          AbsentMeansNone(w, cs, c, g.hash);
        }
      }
    }
  }

  lemma PossibleHasFiles(w: World, cs: set<Catalog>, c: Catalog)
    requires Possible(w, cs) && c in cs
    ensures c.info.id in w.files && LengthsAgree(w, cs)
  {
  }

  // The entries of a presence list that satisfy a test are as many as their sources.
  lemma {:induction false} CountIsSources(ps: seq<SourcePresence>)
    requires forall i, j :: 0 <= i < j < |ps| ==> ps[i].sourceId != ps[j].sourceId
    ensures PresentCount(ps) == |set p | p in ps && p.presence.Present? :: p.sourceId|
  {
    if |ps| > 0 {
      var front, last := ps[..|ps| - 1], ps[|ps| - 1];
      CountIsSources(front);
      var ids := set p | p in front && p.presence.Present? :: p.sourceId;
      assert ps == front + [last];
      forall p | p in front ensures p.sourceId != last.sourceId {
        var i :| 0 <= i < |front| && front[i] == p;
        assert ps[i].sourceId != ps[|ps| - 1].sourceId;
      }
      assert forall p :: p in ps <==> p in front || p == last;
      assert (set p | p in ps && p.presence.Present? :: p.sourceId)
          == ids + (if last.presence.Present? then {last.sourceId} else {});
    }
  }

  lemma PresenceIdsDistinct(cov: Coverage, cs: set<Catalog>, g: ContentGroup)
    requires IsCoverage(cov, cs) && g in cov.groups
    ensures forall i, j :: 0 <= i < j < |g.presence| ==> g.presence[i].sourceId != g.presence[j].sourceId
  {
    assert IsGroup(g, cs, cov.sources);
    forall i, j | 0 <= i < j < |g.presence| ensures g.presence[i].sourceId != g.presence[j].sourceId {
      assert cov.sources[i] in cov.sources && cov.sources[j] in cov.sources;
      var c :| c in cs && c.info == cov.sources[i];
      var d :| d in cs && d.info == cov.sources[j];
      assert g.presence[i].sourceId == c.info.id && g.presence[j].sourceId == d.info.id;
    }
  }

  // In every possible world the exact count is the number of sources that hold the content,
  // and a lower bound is one.
  lemma ReplicaCountSound(w: World, cov: Coverage, cs: set<Catalog>, g: ContentGroup)
    requires Identified(cs) && AcceptedUnavailable(cs) && Possible(w, cs) && IsCoverage(cov, cs) && g in cov.groups
    ensures match g.replicas
            case Exact(n) => |Holders(w, cs, g.hash)| == n
            case AtLeast(n) => |Holders(w, cs, g.hash)| >= n
  {
    assert IsGroup(g, cs, cov.sources);
    PresenceIdsDistinct(cov, cs, g);
    hide IsCoverage, Identified, Possible;
    PresentAreHolders(w, cov, cs, g);
    CountIsSources(g.presence);
    assert Where(g, IsPresent) == set p | p in g.presence && p.presence.Present? :: p.sourceId;
    SubsetSize(Where(g, IsPresent), Holders(w, cs, g.hash));
  }

  // ----- the three-valued presence is exact

  ghost predicate Reachable(c: Catalog) {
    c.info.evidence != Unavailable && c.info.evidence != Unreachable
  }

  // File k of source `id` is a row known by its hash to be content h.
  ghost predicate Pinned(cs: set<Catalog>, id: int, k: FileKey, h: nat) {
    exists c, r :: c in cs && Reachable(c) && c.info.id == id && r in c.rows && IsCopy(c.rows, r, h) && k == Observed(r.fileId)
  }

  ghost function Renamed(files: map<FileKey, nat>, cs: set<Catalog>, id: int, h: nat, f: nat): map<FileKey, nat> {
    map k | k in files :: if files[k] == h && !Pinned(cs, id, k, h) then f else files[k]
  }

  // Every file that need not be content h is some other content f of the same length; h
  // itself may then be given the length m.
  ghost function RenameAll(w: World, cs: set<Catalog>, h: nat, f: nat, m: nat): World {
    var length := w.length;
    World((x: nat) => if x == f then length(h) else if x == h then m else length(x),
          map id | id in w.files :: Renamed(w.files[id], cs, id, h, f))
  }

  ghost function Contents(w: World): set<nat> {
    set id, k | id in w.files && k in w.files[id] :: w.files[id][k]
  }

  lemma FreshNat(s: set<nat>) returns (f: nat)
    ensures f !in s
  {
    var bound := UpperBound(s);
    f := bound + 1;
  }

  lemma {:induction false} UpperBound(s: set<nat>) returns (b: nat)
    ensures forall x :: x in s ==> x <= b
  {
    b := 0;
    if s != {} {
      var x :| x in s;
      var b' := UpperBound(s - {x});
      b := if x > b' then x else b';
      assert forall y :: y in s ==> y == x || y in s - {x};
    }
  }

  ghost predicate FreshContent(w: World, cs: set<Catalog>, h: nat, f: nat) {
    f != h && f !in Contents(w) && f !in HashesOf(AllItems(cs))
  }

  lemma CopyHashListed(cs: set<Catalog>, c: Catalog, r: Row, h: nat)
    requires c in cs && r in c.rows && IsCopy(c.rows, r, h)
    ensures h in HashesOf(AllItems(cs))
    ensures TrustedSize(r).Some? ==> TrustedSize(r).value in SizesOf(AllItems(cs), h)
  {
    assert FateOf(c.rows, r) == Copy(h) && (c, r) in AllItems(cs);
  }

  lemma RenameRespects(w: World, cs: set<Catalog>, c: Catalog, h: nat, f: nat, m: nat)
    requires Identified(cs) && Possible(w, cs) && FreshContent(w, cs, h, f) && c in cs
    requires m == w.length(h) || SizesOf(AllItems(cs), h) == {}
    ensures Respects(RenameAll(w, cs, h, f, m), c)
  {
    var w', files := RenameAll(w, cs, h, f, m), w.files[c.info.id];
    var files' := w'.files[c.info.id];
    if Reachable(c) {
      assert Respects(w, c);
      forall r | r in c.rows && EffectiveFile(c.rows, r) && Observed(r.fileId) in files'
        ensures Agrees(w', r, files'[Observed(r.fileId)])
      {
        var k := Observed(r.fileId);
        assert Agrees(w, r, files[k]);
        assert files[k] in Contents(w);
        forall g | IsCopy(c.rows, r, g) ensures files'[k] == g && (TrustedSize(r).Some? ==> g != h || m == w.length(h)) {
          CopyHashListed(cs, c, r, g);
          assert g == h ==> Pinned(cs, c.info.id, k, h);
        }
        if files'[k] == h && TrustedSize(r).Some? {
          PinnedRow(cs, c, r, h);
        }
      }
    }
  }

  lemma PinnedRow(cs: set<Catalog>, c: Catalog, r: Row, h: nat)
    requires Identified(cs) && c in cs && r in c.rows && Pinned(cs, c.info.id, Observed(r.fileId), h)
    ensures IsCopy(c.rows, r, h)
  {
  }

  lemma RenamePossible(w: World, cs: set<Catalog>, h: nat, f: nat, m: nat)
    requires Identified(cs) && Possible(w, cs) && FreshContent(w, cs, h, f)
    requires m == w.length(h) || SizesOf(AllItems(cs), h) == {}
    ensures Possible(RenameAll(w, cs, h, f, m), cs)
  {
    hide Respects, Identified, FreshContent, SizesOf, Renamed;
    var w' := RenameAll(w, cs, h, f, m);
    forall c, r | c in cs && r in c.rows && EffectiveFile(c.rows, r) && Vouched(r) && Sized(r)
      ensures w'.length(r.hash.value) == r.size.value
    {
      EvidenceReads(c.rows, r);
      CopyHashListed(cs, c, r, r.hash.value);
      FreshIsFresh(w, cs, h, f);
    }
    forall c | c in cs ensures Respects(w', c) {
      RenameRespects(w, cs, c, h, f, m);
    }
  }

  lemma FreshIsFresh(w: World, cs: set<Catalog>, h: nat, f: nat)
    requires FreshContent(w, cs, h, f)
    ensures f != h && f !in HashesOf(AllItems(cs))
  {
  }

  ghost function Put(w: World, id: int, k: FileKey, h: nat): World
    requires id in w.files
  {
    var updated: map<FileKey, nat> := w.files[id][k := h];
    w.(files := w.files[id := updated])
  }

  ghost predicate CouldHold(w: World, c: Catalog, k: FileKey, h: nat) {
    if k.Hidden? then c.info.evidence != Complete
    else Reachable(c) && exists r :: r in c.rows && r.fileId == k.fileId && Fits(w, c, r, h)
  }

  ghost predicate Fits(w: World, c: Catalog, r: Row, h: nat) {
    FateOf(c.rows, r).Unexplained? && (TrustedSize(r).None? || TrustedSize(r).value == w.length(h))
  }

  // A hidden file of a source that need not be complete can be anything; so can an
  // unexplained row whose size allows it.
  lemma PutPossible(w: World, cs: set<Catalog>, c: Catalog, k: FileKey, h: nat)
    requires Identified(cs) && Possible(w, cs) && c in cs
    requires CouldHold(w, c, k, h)
    ensures Possible(Put(w, c.info.id, k, h), cs) && Holds(Put(w, c.info.id, k, h), c.info.id, h)
  {
    var w' := Put(w, c.info.id, k, h);
    assert k in Holding(w', c.info.id, h);
    forall d | d in cs ensures Respects(w', d) {
      assert Respects(w, d);
      if d.info.id == c.info.id {
        assert d == c;
        PutRespects(w, cs, c, k, h);
      }
    }
  }

  lemma PutRespects(w: World, cs: set<Catalog>, c: Catalog, k: FileKey, h: nat)
    requires Identified(cs) && c in cs && c.info.id in w.files && Respects(w, c)
    requires CouldHold(w, c, k, h)
    ensures Respects(Put(w, c.info.id, k, h), c)
  {
    var w', files := Put(w, c.info.id, k, h), w.files[c.info.id];
    var files' := w'.files[c.info.id];
    if Reachable(c) {
      forall r | r in c.rows && EffectiveFile(c.rows, r) && Observed(r.fileId) in files'
        ensures Agrees(w', r, files'[Observed(r.fileId)])
      {
        if Observed(r.fileId) != k { assert Agrees(w, r, files[Observed(r.fileId)]); }
      }
    }
  }

  // Where presence is unknown the evidence really leaves it open: if the evidence is
  // consistent at all, some possible world has the content there and some has not.
  lemma UnknownIsOpen(w: World, cs: set<Catalog>, c: Catalog, h: nat) returns (without: World, holding: World)
    requires Identified(cs) && Possible(w, cs) && c in cs && PresenceOf(c, h, GroupSize(cs, h)).Unknown?
    ensures Possible(without, cs) && !Holds(without, c.info.id, h)
    ensures Possible(holding, cs) && Holds(holding, c.info.id, h)
  {
    hide Possible, Identified, Suspects, Holds, RenameAll, Contents, Put;
    PossibleHasFiles(w, cs, c);
    var f := FreshNat(Contents(w) + HashesOf(AllItems(cs)) + {h});
    without := RenameAll(w, cs, h, f, w.length(h));
    RenamePossible(w, cs, h, f, w.length(h));
    NoneLeft(w, cs, c, h, f, w.length(h));
    if c.info.evidence != Complete {
      PutPossible(w, cs, c, Hidden(0), h);
      holding := Put(w, c.info.id, Hidden(0), h);
    } else {
      var size := GroupSize(cs, h);
      var r := SomeSuspect(c, size);
      if TrustedSize(r).None? || size.Some? {
        if size.Some? { GroupSizeIsLength(w, cs, h); }
        PutPossible(w, cs, c, Observed(r.fileId), h);
        holding := Put(w, c.info.id, Observed(r.fileId), h);
      } else {
        UnknownSizeUnpinned(w, cs, h);
        var m := TrustedSize(r).value;
        RenamePossible(w, cs, h, f, m);
        var w' := RenameAll(w, cs, h, f, m);
        assert w'.length(h) == m by { LengthRenamed(w, cs, h, f, m); }
        PossibleHasFiles(w', cs, c);
        PutPossible(w', cs, c, Observed(r.fileId), h);
        holding := Put(w', c.info.id, Observed(r.fileId), h);
      }
    }
  }

  lemma SomeSuspect(c: Catalog, size: Option<nat>) returns (r: Row)
    requires |Suspects(c, size)| > 0
    ensures r in c.rows && FateOf(c.rows, r).Unexplained? && CouldBe(r, size)
  {
    r :| r in Suspects(c, size);
  }

  lemma LengthRenamed(w: World, cs: set<Catalog>, h: nat, f: nat, m: nat)
    requires f != h
    ensures RenameAll(w, cs, h, f, m).length(h) == m
  {
  }

  lemma NoneLeft(w: World, cs: set<Catalog>, c: Catalog, h: nat, f: nat, m: nat)
    requires Identified(cs) && Possible(w, cs) && FreshContent(w, cs, h, f) && c in cs && PresenceOf(c, h, GroupSize(cs, h)).Unknown?
    ensures !Holds(RenameAll(w, cs, h, f, m), c.info.id, h)
  {
    hide Respects, IsCopy, LengthsAgree;
    var w' := RenameAll(w, cs, h, f, m);
    forall k | k in w'.files[c.info.id] ensures w'.files[c.info.id][k] != h {
      if Pinned(cs, c.info.id, k, h) {
        var d, r :| d in cs && Reachable(d) && d.info.id == c.info.id && r in d.rows && IsCopy(d.rows, r, h) && k == Observed(r.fileId);
        assert d == c;
        CopyRowCounts(c, r, h);
      }
    }
  }

  lemma CopyRowCounts(c: Catalog, r: Row, h: nat)
    requires r in c.rows && IsCopy(c.rows, r, h)
    ensures |CopiesIn(c, h)| > 0
  {
    assert r in CopiesIn(c, h);
  }

  lemma UnknownSizeUnpinned(w: World, cs: set<Catalog>, h: nat)
    requires LengthsAgree(w, cs) && GroupSize(cs, h).None?
    ensures SizesOf(AllItems(cs), h) == {}
  {
    var sizes := SizesOf(AllItems(cs), h);
    forall n | n in sizes ensures n == w.length(h) {
      var i :| i in AllItems(cs) && FateOf(i.0.rows, i.1) == Copy(h) && TrustedSize(i.1) == Some(n);
      assert IsCopy(i.0.rows, i.1, h);
    }
    if n :| n in sizes { assert sizes == {n}; }
  }

  // Present is claimed exactly when every possible world has the content in the source, and
  // Absent exactly when none has.
  lemma PresenceExact(w: World, cs: set<Catalog>, c: Catalog, h: nat)
    requires Identified(cs) && AcceptedUnavailable(cs) && Possible(w, cs) && c in cs
    ensures PresenceOf(c, h, GroupSize(cs, h)).Present? <==> forall v: World :: Possible(v, cs) ==> Holds(v, c.info.id, h)
    ensures PresenceOf(c, h, GroupSize(cs, h)).Absent? <==> forall v: World :: Possible(v, cs) ==> !Holds(v, c.info.id, h)
  {
    hide Possible, Identified, PresenceOf;
    if PresenceOf(c, h, GroupSize(cs, h)).Unknown? {
      var without, holding := UnknownIsOpen(w, cs, c, h);
    } else {
      forall v: World | Possible(v, cs)
        ensures Holds(v, c.info.id, h) <==> PresenceOf(c, h, GroupSize(cs, h)).Present?
      {
        PossibleHasFiles(v, cs, c);
        if PresenceOf(c, h, GroupSize(cs, h)).Present? {
          PresentMeansThatMany(v, cs, c, h);
        } else {
          AbsentMeansNone(v, cs, c, h);
        }
      }
      assert Possible(w, cs);
    }
  }

  // ----- which sources can hold the content together

  // A length the content can have.
  ghost predicate LengthFits(cs: set<Catalog>, h: nat, m: nat) {
    GroupSize(cs, h).None? || GroupSize(cs, h).value == m
  }

  // A source of unknown presence where content of length m has room: one that need not be
  // complete, or one with a row that may be of that length.
  ghost predicate Able(cs: set<Catalog>, c: Catalog, h: nat, m: nat) {
    && PresenceOf(c, h, GroupSize(cs, h)).Unknown?
    && (c.info.evidence == Complete ==> exists r :: r in c.rows && Roomy(c, r, m))
  }

  ghost predicate Roomy(c: Catalog, r: Row, m: nat) {
    FateOf(c.rows, r).Unexplained? && (TrustedSize(r).None? || TrustedSize(r).value == m)
  }

  ghost function AbleSources(cs: set<Catalog>, h: nat, m: nat): set<int> {
    set c | c in cs && Able(cs, c, h, m) :: c.info.id
  }

  ghost function SureSources(cs: set<Catalog>, h: nat): set<int> {
    set c | c in cs && PresenceOf(c, h, GroupSize(cs, h)).Present? :: c.info.id
  }

  lemma SureApart(cs: set<Catalog>, h: nat, m: nat)
    requires Identified(cs)
    ensures SureSources(cs, h) !! AbleSources(cs, h, m)
  {
    hide PresenceOf;
  }

  lemma UnknownHolderAble(v: World, cs: set<Catalog>, c: Catalog, h: nat)
    requires Possible(v, cs) && c in cs && Holds(v, c.info.id, h) && PresenceOf(c, h, GroupSize(cs, h)).Unknown?
    ensures Able(cs, c, h, v.length(h))
  {
    if c.info.evidence == Complete {
      var files := v.files[c.info.id];
      var k :| k in Holding(v, c.info.id, h);
      var r :| r in c.rows && EffectiveFile(c.rows, r) && r.fileId == k.fileId;
      assert Agrees(v, r, files[k]);
      if FateOf(c.rows, r).Copy? {
        assert IsCopy(c.rows, r, FateOf(c.rows, r).hash);
        CopyRowCounts(c, r, h);
        assert false;
      }
      assert Roomy(c, r, v.length(h));
    }
  }

  lemma HoldersWithin(v: World, cs: set<Catalog>, h: nat)
    requires Identified(cs) && AcceptedUnavailable(cs) && Possible(v, cs)
    ensures LengthFits(cs, h, v.length(h))
    ensures SureSources(cs, h) <= Holders(v, cs, h) <= SureSources(cs, h) + AbleSources(cs, h, v.length(h))
  {
    if c :| c in cs { PossibleHasFiles(v, cs, c); }
    if GroupSize(cs, h).Some? { GroupSizeIsLength(v, cs, h); }
    hide Identified, Possible, PresenceOf, Able;
    forall c | c in cs
      ensures PresenceOf(c, h, GroupSize(cs, h)).Present? ==> Holds(v, c.info.id, h)
      ensures Holds(v, c.info.id, h) ==> PresenceOf(c, h, GroupSize(cs, h)).Present? || Able(cs, c, h, v.length(h))
    {
      PossibleHasFiles(v, cs, c);
      match PresenceOf(c, h, GroupSize(cs, h))
      case Present(_) => PresentMeansThatMany(v, cs, c, h);
      case Absent => AbsentMeansNone(v, cs, c, h);
      case Unknown(_) => if Holds(v, c.info.id, h) { UnknownHolderAble(v, cs, c, h); }
    }
    hide Holds, GroupSize;
  }

  lemma LengthIsFree(w: World, cs: set<Catalog>, h: nat, m: nat)
    requires Possible(w, cs) && LengthFits(cs, h, m)
    ensures m == w.length(h) || SizesOf(AllItems(cs), h) == {}
  {
    hide Respects;
    if GroupSize(cs, h).Some? { GroupSizeIsLength(w, cs, h); } else { UnknownSizeUnpinned(w, cs, h); }
  }

  // The content nowhere but where it must be, at any length it can have.
  lemma FewestHolders(w: World, cs: set<Catalog>, h: nat, m: nat) returns (v: World)
    requires Identified(cs) && AcceptedUnavailable(cs) && Possible(w, cs) && LengthFits(cs, h, m)
    ensures Possible(v, cs) && v.length(h) == m && Holders(v, cs, h) == SureSources(cs, h)
  {
    hide Possible, Identified, PresenceOf, Contents, RenameAll, LengthFits;
    var f := FreshNat(Contents(w) + HashesOf(AllItems(cs)) + {h});
    LengthIsFree(w, cs, h, m);
    RenamePossible(w, cs, h, f, m);
    LengthRenamed(w, cs, h, f, m);
    v := RenameAll(w, cs, h, f, m);
    forall c | c in cs ensures Holds(v, c.info.id, h) <==> PresenceOf(c, h, GroupSize(cs, h)).Present? {
      PossibleHasFiles(v, cs, c);
      match PresenceOf(c, h, GroupSize(cs, h))
      case Present(_) => PresentMeansThatMany(v, cs, c, h);
      case Absent => AbsentMeansNone(v, cs, c, h);
      case Unknown(_) => NoneLeft(w, cs, c, h, f, m);
    }
    hide Holds, GroupSize;
  }

  lemma PutHolders(w: World, cs: set<Catalog>, c: Catalog, k: FileKey, h: nat)
    requires c in cs && c.info.id in w.files
    ensures Holders(Put(w, c.info.id, k, h), cs, h) == Holders(w, cs, h) + {c.info.id}
    ensures Put(w, c.info.id, k, h).length == w.length
  {
    var w' := Put(w, c.info.id, k, h);
    forall d | d in cs ensures Holds(w', d.info.id, h) <==> Holds(w, d.info.id, h) || d.info.id == c.info.id {
      if d.info.id == c.info.id {
        assert k in Holding(w', d.info.id, h);
      } else if d.info.id in w.files {
        assert w'.files[d.info.id] == w.files[d.info.id];
      }
    }
    hide Holds, Put;
  }

  lemma OneMoreHolder(w: World, cs: set<Catalog>, h: nat, c: Catalog) returns (v: World)
    requires Identified(cs) && Possible(w, cs) && c in cs && Able(cs, c, h, w.length(h))
    ensures Possible(v, cs) && v.length(h) == w.length(h) && Holders(v, cs, h) == Holders(w, cs, h) + {c.info.id}
  {
    PossibleHasFiles(w, cs, c);
    hide Possible, Identified, Put, Holders, LengthsAgree;
    var k := Hidden(0);
    if c.info.evidence == Complete {
      var r :| r in c.rows && Roomy(c, r, w.length(h));
      k := Observed(r.fileId);
      assert Fits(w, c, r, h);
    }
    assert CouldHold(w, c, k, h);
    PutPossible(w, cs, c, k, h);
    PutHolders(w, cs, c, k, h);
    v := Put(w, c.info.id, k, h);
  }

  // Any of the sources with room can hold the content together, and the others need not.
  lemma {:induction false} HoldersReach(w: World, cs: set<Catalog>, h: nat, m: nat, chosen: set<int>) returns (v: World)
    requires Identified(cs) && AcceptedUnavailable(cs) && Possible(w, cs)
    requires LengthFits(cs, h, m) && chosen <= AbleSources(cs, h, m)
    ensures Possible(v, cs) && v.length(h) == m && Holders(v, cs, h) == SureSources(cs, h) + chosen
  {
    hide Possible, Identified, AcceptedUnavailable, LengthFits, Able, Holders, SureSources;
    if chosen == {} {
      v := FewestHolders(w, cs, h, m);
    } else {
      var id :| id in chosen;
      var u := HoldersReach(w, cs, h, m, chosen - {id});
      var c :| c in cs && Able(cs, c, h, m) && c.info.id == id;
      v := OneMoreHolder(u, cs, h, c);
      assert SureSources(cs, h) + (chosen - {id}) + {id} == SureSources(cs, h) + chosen;
    }
  }

  // Exactly these sets of sources are the holders of a content in some possible world: all
  // that hold it surely, with any of those that have room for it at one and the same length.
  lemma HoldersExactly(w: World, cs: set<Catalog>, h: nat, ids: set<int>)
    requires Identified(cs) && AcceptedUnavailable(cs) && Possible(w, cs)
    ensures (exists v: World :: Possible(v, cs) && Holders(v, cs, h) == ids) <==>
            exists m: nat :: LengthFits(cs, h, m) && SureSources(cs, h) <= ids <= SureSources(cs, h) + AbleSources(cs, h, m)
  {
    hide Possible, Identified, AcceptedUnavailable, LengthFits, AbleSources, Holders, SureSources;
    if v: World :| Possible(v, cs) && Holders(v, cs, h) == ids {
      HoldersWithin(v, cs, h);
    }
    if m: nat :| LengthFits(cs, h, m) && SureSources(cs, h) <= ids <= SureSources(cs, h) + AbleSources(cs, h, m) {
      var chosen := ids - SureSources(cs, h);
      var v := HoldersReach(w, cs, h, m, chosen);
      assert SureSources(cs, h) + chosen == ids;
    }
  }

  lemma PresentAreSure(cov: Coverage, cs: set<Catalog>, g: ContentGroup)
    requires IsCoverage(cov, cs) && g in cov.groups
    ensures Where(g, IsPresent) == SureSources(cs, g.hash)
  {
    hide IsCoverage, PresenceOf, GroupSize;
    forall id | id in Where(g, IsPresent) ensures id in SureSources(cs, g.hash) {
      var p :| p in g.presence && p.presence.Present? && p.sourceId == id;
      var c := PresenceListed(cov, cs, g, p);
    }
    forall id | id in SureSources(cs, g.hash) ensures id in Where(g, IsPresent) {
      var c :| c in cs && PresenceOf(c, g.hash, GroupSize(cs, g.hash)).Present? && c.info.id == id;
      PresenceOfSource(cov, cs, g, c);
    }
  }

  // A source of unknown presence has room at some length the content can have.
  lemma UnknownIsAble(cs: set<Catalog>, c: Catalog, h: nat) returns (m: nat)
    requires c in cs && PresenceOf(c, h, GroupSize(cs, h)).Unknown?
    ensures LengthFits(cs, h, m) && Able(cs, c, h, m)
  {
    var size := GroupSize(cs, h);
    m := if size.Some? then size.value else 0;
    if c.info.evidence == Complete {
      var r := SomeSuspect(c, size);
      if size.None? && TrustedSize(r).Some? { m := TrustedSize(r).value; }
      assert Roomy(c, r, m);
    }
  }

  lemma UnknownSource(cov: Coverage, cs: set<Catalog>, g: ContentGroup) returns (c: Catalog, m: nat)
    requires IsCoverage(cov, cs) && g in cov.groups && AnyUnknown(g.presence)
    ensures c in cs && LengthFits(cs, g.hash, m) && Able(cs, c, g.hash, m)
  {
    hide IsCoverage, PresenceOf, LengthFits, Able;
    var p :| p in g.presence && p.presence.Unknown?;
    c := PresenceListed(cov, cs, g, p);
    m := UnknownIsAble(cs, c, g.hash);
  }

  lemma CountedSure(cov: Coverage, cs: set<Catalog>, g: ContentGroup)
    requires IsCoverage(cov, cs) && g in cov.groups
    ensures g.replicas.n == |SureSources(cs, g.hash)| && (g.replicas.Exact? <==> !AnyUnknown(g.presence))
  {
    assert IsGroup(g, cs, cov.sources);
    PresenceIdsDistinct(cov, cs, g);
    PresentAreSure(cov, cs, g);
    hide IsCoverage, SureSources;
    CountIsSources(g.presence);
    assert Where(g, IsPresent) == set p | p in g.presence && p.presence.Present? :: p.sourceId;
  }

  // The count is attained, so a lower bound is the greatest one; and it is called exact
  // exactly when it is the count in every possible world.
  lemma ReplicaCountExact(w: World, cov: Coverage, cs: set<Catalog>, g: ContentGroup)
    requires Identified(cs) && AcceptedUnavailable(cs) && Possible(w, cs) && IsCoverage(cov, cs) && g in cov.groups
    ensures exists v: World :: Possible(v, cs) && |Holders(v, cs, g.hash)| == g.replicas.n
    ensures g.replicas.Exact? <==> forall v: World :: Possible(v, cs) ==> |Holders(v, cs, g.hash)| == g.replicas.n
  {
    hide Identified, AcceptedUnavailable, Possible, IsCoverage, LengthFits, Able, Holders, SureSources;
    CountedSure(cov, cs, g);
    HoldersWithin(w, cs, g.hash);
    var fewest := FewestHolders(w, cs, g.hash, w.length(g.hash));
    if g.replicas.Exact? {
      forall v: World | Possible(v, cs) ensures |Holders(v, cs, g.hash)| == g.replicas.n {
        ReplicaCountSound(v, cov, cs, g);
      }
    } else {
      var c, m := UnknownSource(cov, cs, g);
      assert c.info.id in AbleSources(cs, g.hash, m);
      var v := HoldersReach(w, cs, g.hash, m, {c.info.id});
      SureApart(cs, g.hash, m);
      assert c.info.id !in SureSources(cs, g.hash);
      assert |Holders(v, cs, g.hash)| == g.replicas.n + 1;
    }
  }
}
