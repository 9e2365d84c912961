/**
 What a coverage report says of each row and each source (src/core/coverage.rs), in the
 fields of the row and without the engine's own tests.
 */
module CoverageReading {
  import opened Basics
  import opened Order
  import opened Coverage
  import opened Worlds

  // The row is not the last at its exact path.
  predicate Overwritten(rows: set<Row>, r: Row) {
    !r.lossyName && exists o :: o in rows && !o.lossyName && o.path == r.path && o.fileId > r.fileId
  }

  // Row r vouches for content h.
  predicate Evidences(rows: set<Row>, r: Row, h: nat) {
    EffectiveFile(rows, r) && Vouched(r) && r.hash == Some(h)
  }

  lemma FateReads(rows: set<Row>, r: Row)
    ensures forall h: nat :: FateOf(rows, r) == Copy(h) <==> Evidences(rows, r, h)
    ensures forall h: nat :: FateOf(rows, r) == Alias(h) <==>
              r.entry == Hardlink && !Overwritten(rows, r) && r.hash == Some(h) && exists o :: o in rows && Evidences(rows, o, h)
    ensures FateOf(rows, r) == Excluded(ShadowedRow) <==> Overwritten(rows, r)
    ensures FateOf(rows, r) == Excluded(SymlinkRow) <==> r.entry == Symlink && !Overwritten(rows, r)
    ensures FateOf(rows, r) == Excluded(UnmatchedHardlink) <==>
              r.entry == Hardlink && !Overwritten(rows, r)
              && (r.hash.Some? ==> forall o :: o in rows ==> !Evidences(rows, o, r.hash.value))
  {
    forall o | o in rows ensures forall h: nat :: IsCopy(rows, o, h) <==> Evidences(rows, o, h) { EvidenceReads(rows, o); }
    EvidenceReads(rows, r);
    hide IsCopy, Evidences, EffectiveFile;
    assert Overwritten(rows, r) <==> Shadowed(rows, r);
    hide Overwritten, Shadowed;
    assert forall h: nat :: Evidences(rows, r, h) ==> r.entry == File && !Shadowed(rows, r) by { EvidencesFile(rows, r); }
    EvidencesWhen(rows, r);
  }

  lemma EvidencesFile(rows: set<Row>, r: Row)
    ensures forall h: nat :: Evidences(rows, r, h) ==> r.entry == File && !Shadowed(rows, r)
  {
  }

  lemma EvidencesWhen(rows: set<Row>, r: Row)
    ensures r.entry == File && !Shadowed(rows, r) ==>
              forall h: nat :: Evidences(rows, r, h) <==> r.hash == Some(h) && !UntrustedHash(r) && !r.lossyName
  {
  }

  lemma ReasonReads(rows: set<Row>, r: Row, why: UnknownReason)
    ensures FateOf(rows, r) == Unexplained(why) <==>
              && EffectiveFile(rows, r) && !Vouched(r)
              && (why == ReadError <==> r.readError)
              && (why == PaxUnparsed <==> r.paxUnparsed && !r.readError)
              && (why == UnsupportedSparse <==> r.sparse && !r.paxUnparsed && !r.readError)
              && (why == LegacyNameUncertain <==> r.lossyName && !r.sparse && !r.paxUnparsed && !r.readError)
  {
    EvidenceReads(rows, r);
    hide IsCopy, Shadowed;
  }

  lemma ItemOf(cs: set<Catalog>, c: Catalog, r: Row, i: (Catalog, Row))
    requires Identified(cs) && c in cs && r in c.rows && i in AllItems(cs) && RefOf(i.0, i.1) == RefOf(c, r)
    ensures i == (c, r)
  {
  }

  // Where a row is listed in the report is read off the row and its neighbours at its path:
  // the copies and aliases of a content, the unknown content with its reason, the exclusions.
  lemma RowReads(cov: Coverage, cs: set<Catalog>, c: Catalog, r: Row, g: ContentGroup)
    requires Identified(cs) && IsCoverage(cov, cs) && c in cs && r in c.rows && g in cov.groups
    ensures RowRef(c.info.id, r.path, r.fileId) in g.copies <==> Evidences(c.rows, r, g.hash)
    ensures RowRef(c.info.id, r.path, r.fileId) in g.aliases <==>
              r.entry == Hardlink && !Overwritten(c.rows, r) && r.hash == Some(g.hash)
              && exists o :: o in c.rows && Evidences(c.rows, o, g.hash)
  {
    assert IsGroup(g, cs, cov.sources);
    FateReads(c.rows, r);
    hide FateOf, IsCoverage, Identified, Evidences, Overwritten, IsPresenceList, SizesOf;
    assert (c, r) in AllItems(cs);
    RefReads(cs, c, r, Copy(g.hash));
    RefReads(cs, c, r, Alias(g.hash));
  }

  lemma RefReads(cs: set<Catalog>, c: Catalog, r: Row, fate: Fate)
    requires Identified(cs) && c in cs && r in c.rows
    ensures RefOf(c, r) in Refs(AllItems(cs), fate) <==> FateOf(c.rows, r) == fate
  {
    hide FateOf, Identified;
    assert (c, r) in AllItems(cs);
    if RefOf(c, r) in Refs(AllItems(cs), fate) {
      var i :| i in AllItems(cs) && FateOf(i.0.rows, i.1) == fate && RefOf(i.0, i.1) == RefOf(c, r);
      ItemOf(cs, c, r, i);
    }
  }

  lemma RestReads(cov: Coverage, cs: set<Catalog>, c: Catalog, r: Row, size: Option<nat>, why: UnknownReason)
    requires Identified(cs) && IsCoverage(cov, cs) && c in cs && r in c.rows
    ensures var ref := RowRef(c.info.id, r.path, r.fileId);
            && (UnknownContent(ref, size, why) in cov.unknownContent <==>
                  && size == r.size && EffectiveFile(c.rows, r) && !Vouched(r)
                  && (why == ReadError <==> r.readError)
                  && (why == PaxUnparsed <==> r.paxUnparsed && !r.readError)
                  && (why == UnsupportedSparse <==> r.sparse && !r.paxUnparsed && !r.readError)
                  && (why == LegacyNameUncertain <==> r.lossyName && !r.sparse && !r.paxUnparsed && !r.readError))
            && (Exclusion(ref, ShadowedRow) in cov.exclusions <==> Overwritten(c.rows, r))
            && (Exclusion(ref, SymlinkRow) in cov.exclusions <==> r.entry == Symlink && !Overwritten(c.rows, r))
            && (Exclusion(ref, UnmatchedHardlink) in cov.exclusions <==>
                  r.entry == Hardlink && !Overwritten(c.rows, r)
                  && (r.hash.Some? ==> forall o :: o in c.rows ==> !Evidences(c.rows, o, r.hash.value)))
  {
    FateReads(c.rows, r);
    ReasonReads(c.rows, r, why);
    hide FateOf, Identified, Evidences, Overwritten, EffectiveFile, Vouched, IsGroup;
    UnknownReads(cs, c, r, size, why);
    ExclusionReads(cs, c, r, ShadowedRow);
    ExclusionReads(cs, c, r, SymlinkRow);
    ExclusionReads(cs, c, r, UnmatchedHardlink);
    hide UnknownsOf, ExclusionsOf;
  }

  lemma UnknownReads(cs: set<Catalog>, c: Catalog, r: Row, size: Option<nat>, why: UnknownReason)
    requires Identified(cs) && c in cs && r in c.rows
    ensures UnknownContent(RefOf(c, r), size, why) in UnknownsOf(AllItems(cs)) <==>
              size == r.size && FateOf(c.rows, r) == Unexplained(why)
  {
    hide FateOf, Identified;
    assert (c, r) in AllItems(cs);
    var u := UnknownContent(RefOf(c, r), size, why);
    if u in UnknownsOf(AllItems(cs)) {
      var i :| i in AllItems(cs) && FateOf(i.0.rows, i.1).Unexplained?
        && UnknownContent(RefOf(i.0, i.1), i.1.size, FateOf(i.0.rows, i.1).reason) == u;
      ItemOf(cs, c, r, i);
    }
  }

  lemma ExclusionReads(cs: set<Catalog>, c: Catalog, r: Row, why: ExclusionReason)
    requires Identified(cs) && c in cs && r in c.rows
    ensures Exclusion(RefOf(c, r), why) in ExclusionsOf(AllItems(cs)) <==> FateOf(c.rows, r) == Excluded(why)
  {
    hide FateOf, Identified;
    assert (c, r) in AllItems(cs);
    var x := Exclusion(RefOf(c, r), why);
    if x in ExclusionsOf(AllItems(cs)) {
      var i :| i in AllItems(cs) && FateOf(i.0.rows, i.1).Excluded?
        && Exclusion(RefOf(i.0, i.1), FateOf(i.0.rows, i.1).why) == x;
      ItemOf(cs, c, r, i);
    }
  }

  // Rows of a source whose length, where it is known, is that of the content, and which no
  // hash explains.
  ghost function MayMatch(c: Catalog, size: Option<nat>): set<Row> {
    set r | r in c.rows && EffectiveFile(c.rows, r) && !Vouched(r) && (Sized(r) && size.Some? ==> r.size == size)
  }

  ghost function Evidencing(c: Catalog, h: nat): set<Row> {
    set r | r in c.rows && Evidences(c.rows, r, h)
  }

  // What a report says of a content in a source, case by case.
  lemma PresenceReads(cov: Coverage, cs: set<Catalog>, g: ContentGroup, c: Catalog, p: Presence)
    requires Identified(cs) && IsCoverage(cov, cs) && g in cov.groups && c in cs
    ensures SourcePresence(c.info.id, p) in g.presence <==>
              p == if c.info.evidence == Unreachable then Unknown(SourceUnreachable)
                   else if Evidencing(c, g.hash) != {} then Present(|Evidencing(c, g.hash)|)
                   else if c.info.evidence == Unavailable then Unknown(SourceUnavailable)
                   else if c.info.evidence == Incomplete then Unknown(SourceIncomplete)
                   else if c.info.evidence == NoContentHashes then Unknown(SourceHasNoContentHashes)
                   else if MayMatch(c, g.size) != {} then Unknown(UnhashedRowsMayMatch(|MayMatch(c, g.size)|))
                   else Absent
  {
    assert IsGroup(g, cs, cov.sources);
    assert g.size == GroupSize(cs, g.hash);
    forall r | r in c.rows
      ensures FateOf(c.rows, r) == Copy(g.hash) <==> Evidences(c.rows, r, g.hash)
      ensures FateOf(c.rows, r).Unexplained? <==> EffectiveFile(c.rows, r) && !Vouched(r)
      ensures TrustedSize(r) == if Sized(r) then r.size else None
    {
      FateReads(c.rows, r);
      EvidenceReads(c.rows, r);
      ReasonReads(c.rows, r, WhyUnknown(r));
      ReasonIsWhy(c.rows, r);
    }
    hide FateOf, TrustedSize, Evidences, EffectiveFile, Vouched, IsGroup;
    assert CopiesIn(c, g.hash) == Evidencing(c, g.hash);
    assert Suspects(c, g.size) == MayMatch(c, g.size);
    PresenceOfSource(cov, cs, g, c);
    if SourcePresence(c.info.id, p) in g.presence {
      var d := PresenceListed(cov, cs, g, SourcePresence(c.info.id, p));
      assert d == c by { hide IsCoverage, CopiesIn, Suspects, Sized; }
    }
  }

  lemma ReasonIsWhy(rows: set<Row>, r: Row)
    ensures FateOf(rows, r).Unexplained? ==> FateOf(rows, r) == Unexplained(WhyUnknown(r))
    ensures (WhyUnknown(r) == ReadError <==> r.readError)
         && (WhyUnknown(r) == PaxUnparsed <==> r.paxUnparsed && !r.readError)
         && (WhyUnknown(r) == UnsupportedSparse <==> r.sparse && !r.paxUnparsed && !r.readError)
         && (WhyUnknown(r) == LegacyNameUncertain <==> r.lossyName && !r.sparse && !r.paxUnparsed && !r.readError)
  {
  }

  lemma HashesRead(cs: set<Catalog>, h: nat)
    ensures h in HashesOf(AllItems(cs)) <==> exists c, r :: c in cs && r in c.rows && Evidences(c.rows, r, h)
    ensures forall m: nat :: m in SizesOf(AllItems(cs), h) <==>
              exists c, r :: c in cs && r in c.rows && Evidences(c.rows, r, h) && TrustedSize(r) == Some(m)
  {
    forall c, r | c in cs && r in c.rows ensures FateOf(c.rows, r) == Copy(h) <==> Evidences(c.rows, r, h) {
      FateReads(c.rows, r);
    }
    hide FateOf, Evidences, TrustedSize;
    assert forall c, r :: c in cs && r in c.rows ==> (c, r) in AllItems(cs);
  }

  // A content has a group exactly when some row vouches for it, and its length is known
  // exactly when one is recorded for it and all that are recorded agree.
  lemma GroupReads(cov: Coverage, cs: set<Catalog>, h: nat, n: nat)
    requires IsCoverage(cov, cs)
    ensures (exists g :: g in cov.groups && g.hash == h) <==> exists c, r :: c in cs && r in c.rows && Evidences(c.rows, r, h)
    ensures forall g :: g in cov.groups && g.hash == h ==>
              (g.size == Some(n) <==>
                 && (exists c, r :: c in cs && r in c.rows && Evidences(c.rows, r, h) && Sized(r))
                 && (forall c, r :: c in cs && r in c.rows && Evidences(c.rows, r, h) && Sized(r) ==> r.size == Some(n)))
  {
    forall c, r | c in cs && r in c.rows ensures TrustedSize(r) == if Sized(r) then r.size else None {
      EvidenceReads(c.rows, r);
    }
    var sizes := SizesOf(AllItems(cs), h);
    assert forall g :: g in cov.groups && g.hash == h ==> IsGroup(g, cs, cov.sources) && g.size == OnlySize(sizes);
    hide FateOf, Evidences, TrustedSize, Sized, IsGroup, SizesOf, HashesOf, AllItems, OnlySize;
    HashesRead(cs, h);
    OnlySizeIs(sizes, n);
    SizesAgree(cs, h, n, sizes);
  }

  lemma OnlySizeIs(sizes: set<nat>, n: nat)
    ensures OnlySize(sizes) == Some(n) <==> sizes == {n}
  {
    if |sizes| == 1 {
      var m :| m in sizes;
      assert |sizes - {m}| == 0;
      assert sizes == {m} + (sizes - {m});
    }
  }

  lemma SizesAgree(cs: set<Catalog>, h: nat, n: nat, sizes: set<nat>)
    requires forall c, r :: c in cs && r in c.rows ==> TrustedSize(r) == if Sized(r) then r.size else None
    requires forall m: nat :: m in sizes <==>
      exists c, r :: c in cs && r in c.rows && Evidences(c.rows, r, h) && TrustedSize(r) == Some(m)
    ensures sizes == {n} <==>
              && (exists c, r :: c in cs && r in c.rows && Evidences(c.rows, r, h) && Sized(r))
              && (forall c, r :: c in cs && r in c.rows && Evidences(c.rows, r, h) && Sized(r) ==> r.size == Some(n))
  {
    hide Evidences, TrustedSize;
    if sizes == {n} {
      assert n in sizes;
      forall c, r | c in cs && r in c.rows && Evidences(c.rows, r, h) && Sized(r) ensures r.size == Some(n) {
        assert r.size.value in sizes;
      }
    }
    if c, r :| c in cs && r in c.rows && Evidences(c.rows, r, h) && Sized(r) && r.size == Some(n) {
      assert n in sizes;
    }
  }

  // ----- refusals and orders

  // Refused are exactly: two sources of one id; two rows of one id in a source; a row in a
  // source without a catalog; a hash in a source that has none.
  lemma RefusedExactly(sources: seq<Source>)
    ensures Rejected(sources) <==>
              || (exists i, j :: 0 <= i < j < |sources| && sources[i].id == sources[j].id)
              || (exists s :: s in sources && exists i, j :: 0 <= i < j < |s.rows| && s.rows[i].fileId == s.rows[j].fileId)
              || (exists s :: s in sources && s.evidence == Unavailable && s.rows != [])
              || (exists s :: s in sources && s.evidence == NoContentHashes && exists r :: r in s.rows && r.hash.Some?)
  {
  }

  // By source, then path, then file id.
  ghost predicate Precedes(x: RowRef, y: RowRef) {
    || x.sourceId < y.sourceId
    || (x.sourceId == y.sourceId && x.path != y.path && (x.path <= y.path || FirstDifferenceLess(x.path, y.path)))
    || (x.sourceId == y.sourceId && x.path == y.path && x.fileId < y.fileId)
  }

  lemma RefKeyReads(x: RowRef, y: RowRef)
    ensures KeyLt(RefKey(x), RefKey(y)) <==> Precedes(x, y)
  {
    LexLeReads(x.path, y.path);
    hide FirstDifferenceLess, LexLe;
  }

  lemma RefsInOrder(refs: seq<RowRef>)
    requires StrictlySortedBy(refs, RefKey)
    ensures forall i, j :: 0 <= i < j < |refs| ==> Precedes(refs[i], refs[j])
  {
    hide Precedes;
    forall i, j | 0 <= i < j < |refs| ensures Precedes(refs[i], refs[j]) { RefKeyReads(refs[i], refs[j]); }
  }

  // Every list of a report is ascending: sources by id, groups by content, rows by source, path
  // and file id.
  lemma ReportInOrder(cov: Coverage, cs: set<Catalog>)
    requires IsCoverage(cov, cs)
    ensures forall i, j :: 0 <= i < j < |cov.sources| ==> cov.sources[i].id < cov.sources[j].id
    ensures forall i, j :: 0 <= i < j < |cov.groups| ==> cov.groups[i].hash < cov.groups[j].hash
    ensures forall g, i, j :: g in cov.groups && 0 <= i < j < |g.copies| ==> Precedes(g.copies[i], g.copies[j])
    ensures forall g, i, j :: g in cov.groups && 0 <= i < j < |g.aliases| ==> Precedes(g.aliases[i], g.aliases[j])
    ensures forall i, j :: 0 <= i < j < |cov.unknownContent| ==> Precedes(cov.unknownContent[i].ref, cov.unknownContent[j].ref)
    ensures forall i, j :: 0 <= i < j < |cov.exclusions| ==> Precedes(cov.exclusions[i].ref, cov.exclusions[j].ref)
  {
    hide Precedes, AllItems, SizesOf, IsPresenceList, CountReplicas, OnlySize, HashesOf, UnknownsOf, ExclusionsOf, Refs;
    assert forall i, j :: 0 <= i < j < |cov.sources| ==> KeyLt(InfoKey(cov.sources[i]), InfoKey(cov.sources[j]));
    assert forall i, j :: 0 <= i < j < |cov.groups| ==> KeyLt(GroupKey(cov.groups[i]), GroupKey(cov.groups[j]));
    forall g | g in cov.groups
      ensures forall i, j :: 0 <= i < j < |g.copies| ==> Precedes(g.copies[i], g.copies[j])
      ensures forall i, j :: 0 <= i < j < |g.aliases| ==> Precedes(g.aliases[i], g.aliases[j])
    {
      assert IsGroup(g, cs, cov.sources);
      RefsInOrder(g.copies);
      RefsInOrder(g.aliases);
    }
    forall i, j | 0 <= i < j < |cov.unknownContent| ensures Precedes(cov.unknownContent[i].ref, cov.unknownContent[j].ref) {
      assert KeyLt(UnknownKey(cov.unknownContent[i]), UnknownKey(cov.unknownContent[j]));
      RefKeyReads(cov.unknownContent[i].ref, cov.unknownContent[j].ref);
    }
    forall i, j | 0 <= i < j < |cov.exclusions| ensures Precedes(cov.exclusions[i].ref, cov.exclusions[j].ref) {
      assert KeyLt(ExclusionKey(cov.exclusions[i]), ExclusionKey(cov.exclusions[j]));
      RefKeyReads(cov.exclusions[i].ref, cov.exclusions[j].ref);
    }
  }
}
