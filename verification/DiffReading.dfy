/**
 What a comparison reports (src/core/diff.rs), in the fields of the two rows and without the
 engine's own tests.
 */
module DiffReading {
  import opened Basics
  import opened Order
  import opened Diff

  // The row that holds its exact path in a snapshot.
  ghost predicate Winner(s: Snapshot, e: Entry) {
    e in s.entries && !e.lossyName
    && forall o :: o in s.entries && !o.lossyName && o.path == e.path ==> o.fileId <= e.fileId
  }

  ghost predicate Vacant(s: Snapshot, path: seq<byte>) {
    forall o :: o in s.entries && !o.lossyName ==> o.path != path
  }

  // The content hash is known and was read to the end.
  predicate HashKnown(e: Entry) {
    e.entryType == File && e.contentHash.Some? && !e.readError && !e.paxUnparsed
  }

  predicate SameContent(x: Entry, y: Entry) {
    HashKnown(x) && HashKnown(y) && x.contentHash == y.contentHash
  }

  predicate MetadataRead(e: Entry) {
    e.mtime.Some? && e.mode.Some? && !e.paxUnparsed
  }

  predicate SameMetadata(x: Entry, y: Entry) {
    x.mtime == y.mtime && x.mode == y.mode
  }

  // An index this version wrote, with content hashes it can compare.
  predicate Comparable(i: Info) {
    i.indexUuid.Some? && i.indexUuid.value != "" && i.schemaVersion == Some(3) && i.hashAlgo == Some("blake3")
    && i.state != Incompatible
  }

  lemma WinnerIs(s: Snapshot, e: Entry)
    ensures Winner(s, e) <==> Effective(s.entries, e)
  {
  }

  // Some row holds a path exactly when any exact row has it.
  lemma VacantIs(s: Snapshot, path: seq<byte>)
    ensures Vacant(s, path) <==> !Has(s.entries, path)
  {
    if o :| o in s.entries && !o.lossyName && o.path == path {
      var m := LastAt(s.entries, path, o);
      assert Effective(s.entries, m);
    }
  }

  lemma {:induction false} LastAt(entries: seq<Entry>, path: seq<byte>, o: Entry) returns (m: Entry)
    requires o in entries && !o.lossyName && o.path == path
    ensures m in entries && !m.lossyName && m.path == path
    ensures forall x :: x in entries && !x.lossyName && x.path == path ==> x.fileId <= m.fileId
  {
    var rest := entries[..|entries| - 1];
    var last := entries[|entries| - 1];
    assert forall x :: x in entries <==> x in rest || x == last;
    if x :| x in rest && !x.lossyName && x.path == path {
      m := LastAt(rest, path, x);
      if !last.lossyName && last.path == path && last.fileId > m.fileId { m := last; }
    } else {
      m := last;
    }
  }

  // What is said of a path both snapshots hold.
  ghost predicate Judged(c: Change, x: Entry, y: Entry) {
    && (c.kind == ContentChanged <==> HashKnown(x) && HashKnown(y) && x.contentHash != y.contentHash)
    && (c.kind == ByteIdentical <==>
          SameContent(x, y) && x.size == y.size && MetadataRead(x) && MetadataRead(y) && SameMetadata(x, y))
    && (c.kind == MetadataOnlyChanged <==>
          SameContent(x, y) && x.size == y.size && MetadataRead(x) && MetadataRead(y) && !SameMetadata(x, y))
    && c.kind != Added && c.kind != Removed && c.kind != Moved
    && (c.reason == DifferentContent <==> c.kind == ContentChanged)
    && (c.reason == EqualContentAndMetadata <==> c.kind == ByteIdentical)
    && (c.reason == EqualContentDifferentMetadata <==> c.kind == MetadataOnlyChanged)
    && (c.reason == UnsupportedEntryType <==> x.entryType != File || y.entryType != File)
    && (c.reason == MissingContentEvidence <==> x.entryType == y.entryType == File && !(HashKnown(x) && HashKnown(y)))
    && (c.reason == InconsistentContentEvidence <==> SameContent(x, y) && x.size != y.size)
    && (c.reason == MissingMetadataEvidence <==>
          SameContent(x, y) && x.size == y.size && !(MetadataRead(x) && MetadataRead(y)))
  }

  lemma SamePathJudges(x: Entry, y: Entry)
    ensures var (kind, reason) := SamePath(x, y); Judged(Change(kind, reason, Some(x), Some(y)), x, y)
  {
  }

  lemma ComparableIs(a: Snapshot, b: Snapshot)
    ensures Comparable(a.info) && Comparable(b.info) <==> Compatible(a, b)
  {
  }

  lemma LeftListed(a: Snapshot, b: Snapshot, lossy: Lossy, r: Report, x: Entry)
    requires IsReport(r, a, b, lossy) && Effective(a.entries, x)
    ensures LeftChange(a, b, lossy, x) in r.changes && LeftChange(a, b, lossy, x).before == Some(x)
    ensures forall d :: d in r.changes && d.before == Some(x) ==> d == LeftChange(a, b, lossy, x)
  {
    var c := LeftChange(a, b, lossy, x);
    assert c in ChangesOf(a, b, lossy) by { hide LeftChange, RightChange, Claimed; }
    LeftBefore(a, b, lossy, x);
    hide LeftChange, ChangesOf, Effective;
    forall d | d in r.changes && d.before == Some(x) ensures d == c { BeforeSideOnce(a, b, lossy, x, c, d); }
  }

  // Every path both snapshots hold gets one change; it is judged on the two rows, or left open
  // if one of the indexes cannot be compared.
  lemma SharedPath(a: Snapshot, b: Snapshot, lossy: Lossy, r: Report, x: Entry, y: Entry)
    requires WellFormed(a) && WellFormed(b) && IsReport(r, a, b, lossy)
    requires Winner(a, x) && Winner(b, y) && x.path == y.path
    ensures exists c :: c in r.changes && c.before == Some(x) && c.after == Some(y)
    ensures forall c :: c in r.changes && (c.before == Some(x) || c.after == Some(y)) ==>
              && c.before == Some(x) && c.after == Some(y)
              && (Comparable(a.info) && Comparable(b.info) ==> Judged(c, x, y))
              && (!Comparable(a.info) || !Comparable(b.info) ==> c.kind == Inconclusive && c.reason == IncompatibleSnapshots)
  {
    WinnerIs(a, x);
    WinnerIs(b, y);
    LeftByPath(a, b, lossy, x, y);
    LeftListed(a, b, lossy, r, x);
    ComparableIs(a, b);
    SamePathJudges(x, y);
    hide LeftChange, ChangesOf, Effective, Winner, Judged, SamePath, Comparable, Compatible, WellFormed;
    var c := LeftChange(a, b, lossy, x);
    forall d | d in r.changes && d.after == Some(y) ensures d == c { AfterSideOnce(a, b, lossy, y, c, d); }
  }

  // A row moves to another exactly when both indexes can be compared and are complete with
  // every content known, no other row on either side has that content, it is not empty, each
  // path is free on the other side, and no name recorded only lossily could be at either.
  ghost predicate Moves(a: Snapshot, b: Snapshot, lossy: Lossy, x: Entry, y: Entry) {
    && Comparable(a.info) && Comparable(b.info) && a.info.state == b.info.state == Complete
    && Winner(a, x) && Winner(b, y) && Vacant(b, x.path) && Vacant(a, y.path)
    && (forall o :: o in b.entries && o.lossyName ==> o.path != lossy(x.path))
    && (forall o :: o in a.entries && o.lossyName ==> o.path != lossy(y.path))
    && SameContent(x, y) && x.size == y.size && x.size != 0
    && (forall o :: o in a.entries ==> HashKnown(o) && (o.contentHash == x.contentHash ==> o == x))
    && (forall o :: o in b.entries ==> HashKnown(o) && (o.contentHash == y.contentHash ==> o == y))
  }

  lemma UniqueIs(s: Snapshot, e: Entry, h: nat)
    ensures Unique(s, e, h) <==>
              && s.info.state == Complete && e in s.entries && HashKnown(e) && e.contentHash == Some(h)
              && forall o :: o in s.entries ==> HashKnown(o) && (o.contentHash == Some(h) ==> o == e)
  {
  }

  lemma CouldHoldIs(s: Snapshot, lossy: Lossy, path: seq<byte>)
    ensures CouldHold(s.entries, lossy, path) <==> exists o :: o in s.entries && o.lossyName && o.path == lossy(path)
  {
  }

  lemma MovesIs(a: Snapshot, b: Snapshot, lossy: Lossy, x: Entry, y: Entry)
    ensures Moves(a, b, lossy, x, y) <==> IsMove(a, b, lossy, x, y)
  {
    WinnerIs(a, x);
    WinnerIs(b, y);
    VacantIs(b, x.path);
    VacantIs(a, y.path);
    ComparableIs(a, b);
    CouldHoldIs(b, lossy, x.path);
    CouldHoldIs(a, lossy, y.path);
    if TrustedHash(x).Some? {
      UniqueIs(a, x, TrustedHash(x).value);
      UniqueIs(b, y, TrustedHash(x).value);
    }
    hide Winner, Effective, Vacant, Has, Comparable, Compatible, CouldHold, Unique;
  }

  lemma MovedExactly(a: Snapshot, b: Snapshot, lossy: Lossy, r: Report, x: Entry, y: Entry)
    requires WellFormed(a) && WellFormed(b) && IsReport(r, a, b, lossy)
    ensures Moves(a, b, lossy, x, y) <==> exists c :: c in r.changes && c.kind == Moved && c.before == Some(x) && c.after == Some(y)
  {
    MovesIs(a, b, lossy, x, y);
    if Moves(a, b, lossy, x, y) {
      LeftByMove(a, b, lossy, x, y);
      var c := LeftChange(a, b, lossy, x);
      assert c in ChangesOf(a, b, lossy) by { hide LeftChange, RightChange, Claimed; }
    }
    hide Moves, ChangesOf;
    if c :| c in r.changes && c.kind == Moved && c.before == Some(x) && c.after == Some(y) {
      MovedIsMove(a, b, lossy, c);
    }
  }

  // A row whose path the other side does not hold, and that moves nowhere: Removed (from the
  // left) or Added (on the right) exactly when the other index is complete, both can be
  // compared, and no lossy name over there could be it.
  ghost predicate Lonely(c: Change, gone: Kind, path: seq<byte>, other: Snapshot, comparable: bool, lossy: Lossy) {
    var hidden := exists o :: o in other.entries && o.lossyName && o.path == lossy(path);
    && (c.kind == gone <==> !hidden && other.info.state == Complete && comparable)
    && (c.kind != gone ==> c.kind == Inconclusive)
    && (c.reason == LegacyNameUncertain <==> hidden)
    && (c.reason == OtherSnapshotIncomplete <==> !hidden && (other.info.state == Incomplete || other.info.state == Unavailable))
    && (c.reason == PathAbsent <==> c.kind == gone)
  }

  lemma AbsenceIsLonely(other: Snapshot, comparable: bool, gone: Kind, lossy: Lossy, path: seq<byte>, c: Change)
    requires gone == Added || gone == Removed
    requires CouldHold(other.entries, lossy, path) ==> c.kind == Inconclusive && c.reason == LegacyNameUncertain
    requires !CouldHold(other.entries, lossy, path) ==> (c.kind, c.reason) == Absence(other.info, comparable, gone)
    requires other.info.state == Incompatible ==> !comparable
    ensures Lonely(c, gone, path, other, comparable, lossy)
  {
    CouldHoldIs(other, lossy, path);
    hide CouldHold;
  }

  lemma RemovedExactly(a: Snapshot, b: Snapshot, lossy: Lossy, r: Report, x: Entry)
    requires WellFormed(a) && WellFormed(b) && IsReport(r, a, b, lossy)
    requires Winner(a, x) && Vacant(b, x.path) && forall y :: !Moves(a, b, lossy, x, y)
    ensures exists c :: c in r.changes && c.before == Some(x)
    ensures forall c :: c in r.changes && c.before == Some(x) ==>
              c.after == None && Lonely(c, Removed, x.path, b, Comparable(a.info) && Comparable(b.info), lossy)
  {
    WinnerIs(a, x);
    VacantIs(b, x.path);
    forall y ensures !IsMove(a, b, lossy, x, y) { MovesIs(a, b, lossy, x, y); }
    ComparableIs(a, b);
    hide Moves, IsMove, LeftChange, ChangesOf, Effective, Vacant, Has, Winner, CouldHold, Lonely, Absence, WellFormed;
    LeftListed(a, b, lossy, r, x);
    LeftAlone(a, b, lossy, x);
    AbsenceIsLonely(b, Compatible(a, b), Removed, lossy, x.path, LeftChange(a, b, lossy, x));
  }

  lemma LeftAlone(a: Snapshot, b: Snapshot, lossy: Lossy, x: Entry)
    requires !Has(b.entries, x.path) && forall y :: !IsMove(a, b, lossy, x, y)
    ensures LeftChange(a, b, lossy, x)
         == if CouldHold(b.entries, lossy, x.path) then UncertainChange(Some(x), None)
            else var (kind, reason) := Absence(b.info, Compatible(a, b), Removed); Change(kind, reason, Some(x), None)
    ensures LeftChange(a, b, lossy, x).before == Some(x)
  {
    hide IsMove, CouldHold, Has;
  }

  // By duality, the same on the right.
  lemma AddedExactly(a: Snapshot, b: Snapshot, lossy: Lossy, r: Report, y: Entry)
    requires WellFormed(a) && WellFormed(b) && IsReport(r, a, b, lossy)
    requires Winner(b, y) && Vacant(a, y.path) && forall x :: !Moves(a, b, lossy, x, y)
    ensures exists c :: c in r.changes && c.after == Some(y)
    ensures forall c :: c in r.changes && c.after == Some(y) ==>
              c.before == None && Lonely(c, Added, y.path, a, Comparable(a.info) && Comparable(b.info), lossy)
  {
    WinnerIs(b, y);
    VacantIs(a, y.path);
    forall x ensures !IsMove(b, a, lossy, y, x) { MovesIs(a, b, lossy, x, y); MoveMirrored(b, a, lossy, y, x); }
    ComparableIs(a, b);
    ComparableIs(b, a);
    AbsenceMirrored(a.info, Compatible(b, a));
    hide Moves, IsMove, LeftChange, ChangesOf, Effective, Vacant, Has, Winner, CouldHold, Lonely, Absence, WellFormed;
    RightListed(a, b, lossy, r, y);
    LeftAlone(b, a, lossy, y);
    AbsenceIsLonely(a, Compatible(a, b), Added, lossy, y.path, Mirror(LeftChange(b, a, lossy, y)));
  }

  lemma AbsenceMirrored(other: Info, comparable: bool)
    ensures var (kind, reason) := Absence(other, comparable, Removed); (MirrorKind(kind), reason) == Absence(other, comparable, Added)
  {
  }

  lemma RightListed(a: Snapshot, b: Snapshot, lossy: Lossy, r: Report, y: Entry)
    requires WellFormed(a) && WellFormed(b) && IsReport(r, a, b, lossy) && Effective(b.entries, y)
    ensures var c := Mirror(LeftChange(b, a, lossy, y));
            && c in r.changes && c.after == Some(y)
            && forall d :: d in r.changes && d.after == Some(y) ==> d == c
  {
    var m := LeftChange(b, a, lossy, y);
    assert m in ChangesOf(b, a, lossy) by { hide LeftChange, RightChange, Claimed; }
    LeftBefore(b, a, lossy, y);
    hide LeftChange, ChangesOf, Effective;
    ChangesMirrored(b, a, lossy, m);
    var c := Mirror(m);
    assert c in r.changes;
    forall d | d in r.changes && d.after == Some(y) ensures d == c { AfterSideOnce(a, b, lossy, y, c, d); }
  }

  // A row with a lossy name is reported alone and left open; a row whose path a later row holds
  // is only excluded.
  lemma OtherRows(a: Snapshot, b: Snapshot, lossy: Lossy, r: Report, e: Entry)
    requires WellFormed(a) && WellFormed(b) && IsReport(r, a, b, lossy)
    ensures e in a.entries && e.lossyName ==> forall c :: c in r.changes && c.before == Some(e) <==>
              c == Change(Inconclusive, LegacyNameUncertain, Some(e), None)
    ensures e in b.entries && e.lossyName ==> forall c :: c in r.changes && c.after == Some(e) <==>
              c == Change(Inconclusive, LegacyNameUncertain, None, Some(e))
    ensures Excluded(Before, e) in r.excluded <==> e in a.entries && !e.lossyName && !Winner(a, e)
    ensures Excluded(After, e) in r.excluded <==> e in b.entries && !e.lossyName && !Winner(b, e)
  {
    ExcludedSides(a, b);
    WinnerIs(a, e);
    WinnerIs(b, e);
    UncertainListed(a, b, lossy);
    hide ChangesOf, Effective, Winner, ExcludedOf;
    if e in a.entries && e.lossyName {
      forall c | c in r.changes && c.before == Some(e) ensures c == UncertainChange(Some(e), None) {
        BeforeSideOnce(a, b, lossy, e, c, UncertainChange(Some(e), None));
      }
    }
    if e in b.entries && e.lossyName {
      forall c | c in r.changes && c.after == Some(e) ensures c == UncertainChange(None, Some(e)) {
        AfterSideOnce(a, b, lossy, e, c, UncertainChange(None, Some(e)));
      }
    }
  }

  lemma UncertainListed(a: Snapshot, b: Snapshot, lossy: Lossy)
    ensures forall e :: e in a.entries && e.lossyName ==> UncertainChange(Some(e), None) in ChangesOf(a, b, lossy)
    ensures forall e :: e in b.entries && e.lossyName ==> UncertainChange(None, Some(e)) in ChangesOf(a, b, lossy)
  {
    hide LeftChange, RightChange, Claimed, Effective;
  }

  ghost function OfKind(cs: seq<Change>, k: Kind): set<int> {
    set i | 0 <= i < |cs| && cs[i].kind == k
  }

  lemma {:induction false} CountsOfKind(cs: seq<Change>, k: Kind)
    ensures CountKind(cs, k) == |OfKind(cs, k)|
  {
    if |cs| > 0 {
      var front, n := cs[..|cs| - 1], |cs| - 1;
      CountsOfKind(front, k);
      assert OfKind(cs, k) == OfKind(front, k) + if cs[n].kind == k then {n} else {};
    }
  }

  // The summary counts the changes of each kind, and the state is the worst of what limits it.
  lemma SummaryAndState(a: Snapshot, b: Snapshot, lossy: Lossy, r: Report)
    requires IsReport(r, a, b, lossy)
    ensures r.summary == Summary(|OfKind(r.changes, Added)|, |OfKind(r.changes, Removed)|, |OfKind(r.changes, Moved)|,
              |OfKind(r.changes, ByteIdentical)|, |OfKind(r.changes, MetadataOnlyChanged)|,
              |OfKind(r.changes, ContentChanged)|, |OfKind(r.changes, Inconclusive)|, |r.excluded|)
    ensures r.state == Complete <==>
              a.info.state == b.info.state == Complete && Comparable(a.info) && Comparable(b.info)
              && forall c :: c in r.changes ==> c.kind != Inconclusive
    ensures r.state == Unavailable <==> a.info.state == Unavailable || b.info.state == Unavailable
    ensures r.state == Incompatible <==> r.state != Unavailable && !(Comparable(a.info) && Comparable(b.info))
  {
    CountsOfKind(r.changes, Added);
    CountsOfKind(r.changes, Removed);
    CountsOfKind(r.changes, Moved);
    CountsOfKind(r.changes, ByteIdentical);
    CountsOfKind(r.changes, MetadataOnlyChanged);
    CountsOfKind(r.changes, ContentChanged);
    CountsOfKind(r.changes, Inconclusive);
    ComparableIs(a, b);
    hide CountKind, ChangesOf, Comparable, Compatible;
    if OfKind(r.changes, Inconclusive) != {} {
      var i :| i in OfKind(r.changes, Inconclusive);
      assert r.changes[i] in r.changes;
    }
    if c :| c in r.changes && c.kind == Inconclusive {
      var i :| 0 <= i < |r.changes| && r.changes[i] == c;
      assert i in OfKind(r.changes, Inconclusive);
    }
  }

  // ----- the order of the report

  // The row a change is listed under: the earlier one where there is one.
  function Anchor(c: Change): Option<Entry> {
    if c.before.Some? then c.before else c.after
  }

  ghost predicate PathLess(x: seq<byte>, y: seq<byte>) {
    x != y && (x <= y || FirstDifferenceLess(x, y))
  }

  lemma PathsRead(x: seq<byte>, y: seq<byte>)
    ensures PathLess(x, y) <==> x != y && LexLe(x, y)
  {
    LexLeReads(x, y);
  }

  ghost predicate ListedBefore(c: Change, d: Change)
    requires Anchor(c).Some? && Anchor(d).Some?
  {
    var e, f := Anchor(c).value, Anchor(d).value;
    || PathLess(e.path, f.path)
    || (e.path == f.path && e.fileId < f.fileId)
    || (e.path == f.path && e.fileId == f.fileId && d.after.Some?
        && (c.after.None? || c.after.value.fileId < d.after.value.fileId))
  }

  // Changes are listed by path; under one path by the id of the row they are listed under; then
  // those without a later row first, and the others by its id.
  lemma ChangesInOrder(a: Snapshot, b: Snapshot, lossy: Lossy, r: Report, x: nat, y: nat)
    requires !Malformed(a) && !Malformed(b) && IsReport(r, a, b, lossy) && x < y < |r.changes|
    ensures Anchor(r.changes[x]).Some? && Anchor(r.changes[y]).Some?
    ensures ListedBefore(r.changes[x], r.changes[y])
  {
    var c, d := r.changes[x], r.changes[y];
    assert c in r.changes && d in r.changes;
    SidesKnown(a, b, lossy, c);
    SidesKnown(a, b, lossy, d);
    NotMalformed(a);
    NotMalformed(b);
    assert KeyLt(ChangeKey(c), ChangeKey(d));
    PathsRead(Anchor(c).value.path, Anchor(d).value.path);
    hide ChangesOf, ExcludedOf, PathLess, LexLe, IsReport, Malformed, WellFormed;
  }

  // Excluded rows are listed by side, path and id.
  lemma ExcludedInOrder(a: Snapshot, b: Snapshot, lossy: Lossy, r: Report, x: nat, y: nat)
    requires IsReport(r, a, b, lossy) && x < y < |r.excluded|
    ensures var c, d := r.excluded[x], r.excluded[y];
            || (c.side == Before && d.side == After)
            || (c.side == d.side && PathLess(c.entry.path, d.entry.path))
            || (c.side == d.side && c.entry.path == d.entry.path && c.entry.fileId < d.entry.fileId)
  {
    var c, d := r.excluded[x], r.excluded[y];
    assert KeyLt(ExcludedKey(c), ExcludedKey(d));
    PathsRead(c.entry.path, d.entry.path);
    hide ChangesOf, ExcludedOf, PathLess, LexLe, IsReport;
  }
}
