/**
 Historical snapshot comparison (src/core/diff.rs): two indexes of a source are matched by
 raw path, then by unique content, with names an older indexer recorded only lossily kept
 apart.
 */
module Diff {
  import opened Basics
  import opened Order

  const SCHEMA_VERSION := 3

  datatype State = Complete | Incomplete | Unavailable | Incompatible

  datatype Info = Info(indexUuid: Option<string>, schemaVersion: Option<int>, hashAlgo: Option<string>, state: State)

  datatype EntryType = File | Hardlink | Symlink | Unsupported

  datatype Entry = Entry(
    fileId: int, path: seq<byte>, entryType: EntryType, size: nat, mtime: Option<int>, mode: Option<nat>,
    contentHash: Option<nat>, readError: bool, paxUnparsed: bool, lossyName: bool)

  datatype Snapshot = Snapshot(info: Info, entries: seq<Entry>)

  datatype Side = Before | After

  datatype Kind = Added | Removed | Moved | ByteIdentical | MetadataOnlyChanged | ContentChanged | Inconclusive

  datatype Reason =
    | PathAbsent | UniqueContentCorrespondence | EqualContentAndMetadata | EqualContentDifferentMetadata
    | DifferentContent | MissingContentEvidence | InconsistentContentEvidence | MissingMetadataEvidence
    | UnsupportedEntryType | OtherSnapshotIncomplete | IncompatibleSnapshots | LegacyNameUncertain

  datatype Change = Change(kind: Kind, reason: Reason, before: Option<Entry>, after: Option<Entry>)

  // Reported with the reason that a later row holds the path.
  datatype Excluded = Excluded(side: Side, entry: Entry)

  datatype Summary = Summary(
    added: nat, removed: nat, moved: nat, byteIdentical: nat, metadataOnlyChanged: nat,
    contentChanged: nat, inconclusive: nat, excluded: nat)

  datatype Report = Report(state: State, changes: seq<Change>, excluded: seq<Excluded>, summary: Summary)

  // How a path's bytes render as text; not modelled beyond being a function.
  type Lossy = seq<byte> -> seq<byte>

  // ----- evidence

  predicate CompatibleInfo(i: Info) {
    i.schemaVersion == Some(SCHEMA_VERSION) && i.hashAlgo == Some("blake3")
    && i.indexUuid.Some? && i.indexUuid.value != "" && i.state != Incompatible
  }

  predicate Compatible(a: Snapshot, b: Snapshot) {
    CompatibleInfo(a.info) && CompatibleInfo(b.info)
  }

  function TrustedHash(e: Entry): Option<nat> {
    if e.entryType == File && !e.readError && !e.paxUnparsed then e.contentHash else None
  }

  predicate MetadataKnown(e: Entry) {
    e.mtime.Some? && e.mode.Some? && !e.paxUnparsed
  }

  function SamePath(before: Entry, after: Entry): (Kind, Reason) {
    if before.entryType != File || after.entryType != File then (Inconclusive, UnsupportedEntryType)
    else
      var a, b := TrustedHash(before), TrustedHash(after);
      if a.Some? && b.Some? then
        if a != b then (ContentChanged, DifferentContent)
        else if before.size == after.size then
          if !MetadataKnown(before) || !MetadataKnown(after) then (Inconclusive, MissingMetadataEvidence)
          else if before.mtime == after.mtime && before.mode == after.mode then (ByteIdentical, EqualContentAndMetadata)
          else (MetadataOnlyChanged, EqualContentDifferentMetadata)
        else (Inconclusive, InconsistentContentEvidence)
      else (Inconclusive, MissingContentEvidence)
  }

  function Absence(other: Info, compatible: bool, kind: Kind): (Kind, Reason) {
    if other.state == Unavailable || other.state == Incomplete then (Inconclusive, OtherSnapshotIncomplete)
    else if !compatible then (Inconclusive, IncompatibleSnapshots)
    else (kind, PathAbsent)
  }

  ghost predicate Malformed(s: Snapshot) {
    || (s.info.state == Unavailable && s.entries != [])
    || (exists e :: e in s.entries && e.fileId <= 0)
    || (exists i, j :: 0 <= i < j < |s.entries| && s.entries[i].fileId == s.entries[j].fileId)
  }

  // The row that holds its exact path: the greatest file id among those with that path.
  predicate Effective(entries: seq<Entry>, e: Entry) {
    e in entries && !e.lossyName &&
    forall o :: o in entries && !o.lossyName && o.path == e.path ==> o.fileId <= e.fileId
  }

  ghost predicate Has(entries: seq<Entry>, path: seq<byte>) {
    exists e :: Effective(entries, e) && e.path == path
  }

  // Some lossy row could really be at `path`.
  predicate CouldHold(entries: seq<Entry>, lossy: Lossy, path: seq<byte>) {
    exists e :: e in entries && e.lossyName && e.path == lossy(path)
  }

  // The only row of a complete, fully hashed snapshot with this content.
  ghost predicate Unique(s: Snapshot, e: Entry, h: nat) {
    && s.info.state == Complete
    && (forall o :: o in s.entries ==> TrustedHash(o).Some?)
    && e in s.entries && TrustedHash(e) == Some(h)
    && forall o :: o in s.entries && TrustedHash(o) == Some(h) ==> o == e
  }

  // ----- what each row of the effective namespaces becomes

  ghost predicate IsMove(a: Snapshot, b: Snapshot, lossy: Lossy, prior: Entry, next: Entry) {
    && Compatible(a, b)
    && Effective(a.entries, prior) && Effective(b.entries, next)
    && !Has(b.entries, prior.path) && !Has(a.entries, next.path)
    && !CouldHold(b.entries, lossy, prior.path) && !CouldHold(a.entries, lossy, next.path)
    && prior.size == next.size != 0
    && TrustedHash(prior).Some? && Unique(a, prior, TrustedHash(prior).value) && Unique(b, next, TrustedHash(prior).value)
  }

  function UncertainChange(before: Option<Entry>, after: Option<Entry>): Change {
    Change(Inconclusive, LegacyNameUncertain, before, after)
  }

  ghost function LeftChange(a: Snapshot, b: Snapshot, lossy: Lossy, prior: Entry): Change {
    if Has(b.entries, prior.path) then
      var next :| Effective(b.entries, next) && next.path == prior.path;
      var (kind, reason) := if Compatible(a, b) then SamePath(prior, next) else (Inconclusive, IncompatibleSnapshots);
      Change(kind, reason, Some(prior), Some(next))
    else if CouldHold(b.entries, lossy, prior.path) then UncertainChange(Some(prior), None)
    else if exists next :: IsMove(a, b, lossy, prior, next) then
      var next :| IsMove(a, b, lossy, prior, next);
      Change(Moved, UniqueContentCorrespondence, Some(prior), Some(next))
    else
      var (kind, reason) := Absence(b.info, Compatible(a, b), Removed);
      Change(kind, reason, Some(prior), None)
  }

  function RightChange(a: Snapshot, b: Snapshot, lossy: Lossy, next: Entry): Change {
    if CouldHold(a.entries, lossy, next.path) then UncertainChange(None, Some(next))
    else
      var (kind, reason) := Absence(a.info, Compatible(a, b), Added);
      Change(kind, reason, None, Some(next))
  }

  // Matched by path or by a move.
  ghost predicate Claimed(a: Snapshot, b: Snapshot, lossy: Lossy, next: Entry) {
    exists prior :: Effective(a.entries, prior) && LeftChange(a, b, lossy, prior).after == Some(next)
  }

  ghost function ChangesOf(a: Snapshot, b: Snapshot, lossy: Lossy): set<Change> {
    (set e | e in a.entries && Effective(a.entries, e) :: LeftChange(a, b, lossy, e))
    + (set e | e in b.entries && Effective(b.entries, e) && !Claimed(a, b, lossy, e) :: RightChange(a, b, lossy, e))
    + (set e | e in a.entries && e.lossyName :: UncertainChange(Some(e), None))
    + (set e | e in b.entries && e.lossyName :: UncertainChange(None, Some(e)))
  }

  ghost function ExcludedOf(a: Snapshot, b: Snapshot): set<Excluded> {
    (set e | e in a.entries && !e.lossyName && !Effective(a.entries, e) :: Excluded(Before, e))
    + (set e | e in b.entries && !e.lossyName && !Effective(b.entries, e) :: Excluded(After, e))
  }

  // ----- the report

  function ChangeKey(c: Change): Key {
    var e := if c.before.Some? then c.before.value else if c.after.Some? then c.after.value
             else Entry(0, [], File, 0, None, None, None, false, false, false);
    Key(0, 0, e.path, e.fileId, if c.after.Some? then c.after.value.fileId else -1)
  }

  function ExcludedKey(x: Excluded): Key {
    Key(if x.side == Before then 0 else 1, 0, x.entry.path, x.entry.fileId, 0)
  }

  function CountKind(cs: seq<Change>, k: Kind): nat {
    if |cs| == 0 then 0 else CountKind(cs[..|cs| - 1], k) + (if cs[|cs| - 1].kind == k then 1 else 0)
  }

  function SummaryOf(cs: seq<Change>, excluded: nat): Summary {
    Summary(CountKind(cs, Added), CountKind(cs, Removed), CountKind(cs, Moved), CountKind(cs, ByteIdentical),
            CountKind(cs, MetadataOnlyChanged), CountKind(cs, ContentChanged), CountKind(cs, Inconclusive), excluded)
  }

  function StateOf(a: Snapshot, b: Snapshot, inconclusive: nat): State {
    if a.info.state == Unavailable || b.info.state == Unavailable then Unavailable
    else if !Compatible(a, b) then Incompatible
    else if a.info.state != Complete || b.info.state != Complete || inconclusive > 0 then Incomplete
    else Complete
  }

  ghost predicate IsReport(r: Report, a: Snapshot, b: Snapshot, lossy: Lossy) {
    && StrictlySortedBy(r.changes, ChangeKey) && (forall c :: c in r.changes <==> c in ChangesOf(a, b, lossy))
    && StrictlySortedBy(r.excluded, ExcludedKey) && (forall x :: x in r.excluded <==> x in ExcludedOf(a, b))
    && r.summary == SummaryOf(r.changes, |r.excluded|)
    && r.state == StateOf(a, b, r.summary.inconclusive)
  }

  // ----- each side holds each path once

  ghost predicate WellFormed(s: Snapshot) {
    forall x, y :: x in s.entries && y in s.entries && x.fileId == y.fileId ==> x == y
  }

  lemma NotMalformed(s: Snapshot)
    requires !Malformed(s)
    ensures WellFormed(s) && forall e :: e in s.entries ==> e.fileId > 0
    ensures Distinct(s.entries)
  {
    forall x, y | x in s.entries && y in s.entries && x.fileId == y.fileId ensures x == y {
      var i :| 0 <= i < |s.entries| && s.entries[i] == x;
      var j :| 0 <= j < |s.entries| && s.entries[j] == y;
    }
  }

  lemma OneHolder(s: Snapshot, x: Entry, y: Entry)
    requires WellFormed(s) && Effective(s.entries, x) && Effective(s.entries, y) && x.path == y.path
    ensures x == y
  {
  }

  lemma LeftByPath(a: Snapshot, b: Snapshot, lossy: Lossy, prior: Entry, next: Entry)
    requires WellFormed(b) && Effective(b.entries, next) && next.path == prior.path
    ensures LeftChange(a, b, lossy, prior) ==
              var (kind, reason) := if Compatible(a, b) then SamePath(prior, next) else (Inconclusive, IncompatibleSnapshots);
              Change(kind, reason, Some(prior), Some(next))
  {
    var n :| Effective(b.entries, n) && n.path == prior.path;
    OneHolder(b, n, next);
    assert forall m :: Effective(b.entries, m) && m.path == prior.path ==> m == next;
  }

  lemma LeftByMove(a: Snapshot, b: Snapshot, lossy: Lossy, prior: Entry, next: Entry)
    requires IsMove(a, b, lossy, prior, next)
    ensures LeftChange(a, b, lossy, prior) == Change(Moved, UniqueContentCorrespondence, Some(prior), Some(next))
  {
    assert forall m :: IsMove(a, b, lossy, prior, m) ==> m == next;
  }

  // A row matched on the left is matched by path or by a move.
  lemma LeftMatched(a: Snapshot, b: Snapshot, lossy: Lossy, prior: Entry, next: Entry)
    requires LeftChange(a, b, lossy, prior).after == Some(next)
    ensures Effective(b.entries, next) && (next.path == prior.path || (!Has(b.entries, prior.path) && IsMove(a, b, lossy, prior, next)))
  {
  }

  lemma LeftUnmatched(a: Snapshot, b: Snapshot, lossy: Lossy, prior: Entry)
    requires LeftChange(a, b, lossy, prior).after.None?
    ensures !Has(b.entries, prior.path) && forall n :: !IsMove(a, b, lossy, prior, n)
    ensures LeftChange(a, b, lossy, prior) ==
              if CouldHold(b.entries, lossy, prior.path) then UncertainChange(Some(prior), None)
              else var (kind, reason) := Absence(b.info, Compatible(a, b), Removed); Change(kind, reason, Some(prior), None)
  {
  }

  // ----- duality

  function MirrorKind(k: Kind): Kind {
    match k
    case Added => Removed
    case Removed => Added
    case _ => k
  }

  function Mirror(c: Change): Change {
    Change(MirrorKind(c.kind), c.reason, c.after, c.before)
  }

  function MirrorExcluded(x: Excluded): Excluded {
    Excluded(if x.side == Before then After else Before, x.entry)
  }

  lemma SamePathMirrored(x: Entry, y: Entry)
    ensures SamePath(y, x) == (MirrorKind(SamePath(x, y).0), SamePath(x, y).1)
    ensures SamePath(x, y) == SamePath(y, x)
  {
  }

  lemma MoveMirrored(a: Snapshot, b: Snapshot, lossy: Lossy, prior: Entry, next: Entry)
    ensures IsMove(a, b, lossy, prior, next) <==> IsMove(b, a, lossy, next, prior)
  {
  }

  lemma MatchMirrored(a: Snapshot, b: Snapshot, lossy: Lossy, prior: Entry, next: Entry)
    requires WellFormed(a) && WellFormed(b) && Effective(a.entries, prior)
    requires LeftChange(a, b, lossy, prior).after == Some(next)
    ensures Effective(b.entries, next) && LeftChange(b, a, lossy, next) == Mirror(LeftChange(a, b, lossy, prior))
  {
    hide LeftChange, IsMove, SamePath, Effective, Has;
    LeftMatched(a, b, lossy, prior, next);
    if next.path == prior.path {
      LeftByPath(a, b, lossy, prior, next);
      LeftByPath(b, a, lossy, next, prior);
      SamePathMirrored(prior, next);
    } else {
      MoveMirrored(a, b, lossy, prior, next);
      LeftByMove(a, b, lossy, prior, next);
      LeftByMove(b, a, lossy, next, prior);
    }
  }

  lemma UnmatchedMirrored(a: Snapshot, b: Snapshot, lossy: Lossy, prior: Entry)
    requires WellFormed(a) && WellFormed(b) && Effective(a.entries, prior)
    requires LeftChange(a, b, lossy, prior).after.None?
    ensures !Claimed(b, a, lossy, prior) && RightChange(b, a, lossy, prior) == Mirror(LeftChange(a, b, lossy, prior))
  {
    hide LeftChange, IsMove, SamePath, Effective;
    LeftUnmatched(a, b, lossy, prior);
    if Claimed(b, a, lossy, prior) {
      var next :| Effective(b.entries, next) && LeftChange(b, a, lossy, next).after == Some(prior);
      LeftMatched(b, a, lossy, next, prior);
      MoveMirrored(b, a, lossy, next, prior);
      assert false;
    }
  }

  lemma ChangesMirrored(a: Snapshot, b: Snapshot, lossy: Lossy, c: Change)
    requires WellFormed(a) && WellFormed(b) && c in ChangesOf(a, b, lossy)
    ensures Mirror(c) in ChangesOf(b, a, lossy)
  {
    hide LeftChange, RightChange, Effective, Claimed;
    if e :| e in a.entries && Effective(a.entries, e) && c == LeftChange(a, b, lossy, e) {
      if c.after.Some? {
        MatchMirrored(a, b, lossy, e, c.after.value);
        EffectiveIn(b.entries, c.after.value);
      } else {
        UnmatchedMirrored(a, b, lossy, e);
      }
    } else if e :| e in b.entries && Effective(b.entries, e) && !Claimed(a, b, lossy, e) && c == RightChange(a, b, lossy, e) {
      UnclaimedMirrored(a, b, lossy, e);
    } else if e :| e in a.entries && e.lossyName && c == UncertainChange(Some(e), None) {
      assert Mirror(c) == UncertainChange(None, Some(e));
    } else {
      var e :| e in b.entries && e.lossyName && c == UncertainChange(None, Some(e));
      assert Mirror(c) == UncertainChange(Some(e), None);
    }
  }

  lemma EffectiveIn(entries: seq<Entry>, e: Entry)
    requires Effective(entries, e)
    ensures e in entries && !e.lossyName
  {
  }

  lemma UnclaimedMirrored(a: Snapshot, b: Snapshot, lossy: Lossy, next: Entry)
    requires WellFormed(a) && WellFormed(b) && Effective(b.entries, next) && !Claimed(a, b, lossy, next)
    ensures LeftChange(b, a, lossy, next) == Mirror(RightChange(a, b, lossy, next))
  {
    hide LeftChange, Effective, RightChange;
    var back := LeftChange(b, a, lossy, next);
    LeftBefore(b, a, lossy, next);
    if back.after.Some? {
      MatchMirrored(b, a, lossy, next, back.after.value);
      assert false;
    }
    UnmatchedMirrored(b, a, lossy, next);
    MirrorTwice(back);
  }

  lemma LeftBefore(a: Snapshot, b: Snapshot, lossy: Lossy, prior: Entry)
    ensures LeftChange(a, b, lossy, prior).before == Some(prior)
  {
  }

  lemma MirrorTwice(c: Change)
    ensures Mirror(Mirror(c)) == c
  {
  }

  function MirrorAll(cs: seq<Change>): seq<Change> {
    seq(|cs|, i requires 0 <= i < |cs| => Mirror(cs[i]))
  }

  function MirrorAllExcluded(xs: seq<Excluded>): seq<Excluded> {
    seq(|xs|, i requires 0 <= i < |xs| => MirrorExcluded(xs[i]))
  }

  lemma {:induction false} CountIsSet(cs: seq<Change>, k: Kind)
    requires Distinct(cs)
    ensures CountKind(cs, k) == |set c | c in cs && c.kind == k|
  {
    if |cs| > 0 {
      var front, last := cs[..|cs| - 1], cs[|cs| - 1];
      CountIsSet(front, k);
      assert last !in front;
      assert cs == front + [last];
      KindSetSnoc(front, last, k);
    }
  }

  lemma KindSetSnoc(front: seq<Change>, last: Change, k: Kind)
    ensures (set c | c in front + [last] && c.kind == k) == (set c | c in front && c.kind == k) + (if last.kind == k then {last} else {})
  {
    assert forall c :: c in front + [last] <==> c in front || c == last;
  }

  lemma StrictDistinct<T(!new)>(s: seq<T>, key: T -> Key)
    requires StrictlySortedBy(s, key)
    ensures Distinct(s)
  {
    forall i, j | 0 <= i < j < |s| ensures s[i] != s[j] {
      assert KeyLt(key(s[i]), key(s[j]));
    }
  }

  // Comparing the other way round gives the mirrored report: sides swapped, Added and
  // Removed exchanged, every other kind, every reason and the state kept.
  lemma Duality(a: Snapshot, b: Snapshot, lossy: Lossy, r: Report, r': Report)
    requires WellFormed(a) && WellFormed(b)
    requires IsReport(r, a, b, lossy) && IsReport(r', b, a, lossy)
    ensures multiset(r'.changes) == multiset(MirrorAll(r.changes))
    ensures multiset(r'.excluded) == multiset(MirrorAllExcluded(r.excluded))
    ensures r'.state == r.state
    ensures r'.summary == r.summary.(added := r.summary.removed, removed := r.summary.added)
  {
    hide ChangesOf, Compatible;
    StrictDistinct(r.changes, ChangeKey);
    StrictDistinct(r'.changes, ChangeKey);
    StrictDistinct(r.excluded, ExcludedKey);
    StrictDistinct(r'.excluded, ExcludedKey);
    MirrorMembers(a, b, lossy, r.changes, r'.changes);
    MirrorLists(r.changes, r'.changes);
    MirrorExcludedLists(a, b, r.excluded, r'.excluded);
    assert |multiset(r'.excluded)| == |multiset(MirrorAllExcluded(r.excluded))|;
    CountsMirrored(r.changes, r'.changes);
    StateSymmetric(a, b, r.summary.inconclusive);
  }

  lemma StateSymmetric(a: Snapshot, b: Snapshot, n: nat)
    ensures StateOf(a, b, n) == StateOf(b, a, n)
  {
  }

  lemma CountsMirrored(cs: seq<Change>, cs': seq<Change>)
    requires Distinct(cs) && Distinct(cs') && forall c :: c in cs' <==> Mirror(c) in cs
    ensures forall k :: CountKind(cs', k) == CountKind(cs, MirrorKind(k))
  {
    forall k ensures CountKind(cs', k) == CountKind(cs, MirrorKind(k)) {
      CountIsSet(cs', k);
      CountIsSet(cs, MirrorKind(k));
      var there, here := (set c | c in cs' && c.kind == k), (set c | c in cs && c.kind == MirrorKind(k));
      assert here == set c | c in there :: Mirror(c) by {
        forall c | c in here ensures c in set d | d in there :: Mirror(d) {
          MirrorTwice(c);
          assert Mirror(c) in there;
        }
      }
      forall c, d | Mirror(c) == Mirror(d) ensures c == d {
        MirrorTwice(c);
        MirrorTwice(d);
      }
      ImageSize(there, Mirror, here);
    }
  }

  lemma MirrorMembers(a: Snapshot, b: Snapshot, lossy: Lossy, cs: seq<Change>, cs': seq<Change>)
    requires WellFormed(a) && WellFormed(b)
    requires forall c :: c in cs <==> c in ChangesOf(a, b, lossy)
    requires forall c :: c in cs' <==> c in ChangesOf(b, a, lossy)
    ensures forall c :: c in cs' <==> Mirror(c) in cs
  {
    hide ChangesOf;
    forall c ensures c in cs' <==> Mirror(c) in cs {
      if c in cs' { ChangesMirrored(b, a, lossy, c); }
      if Mirror(c) in cs {
        ChangesMirrored(a, b, lossy, Mirror(c));
        MirrorTwice(c);
      }
    }
  }

  lemma MirrorLists(cs: seq<Change>, cs': seq<Change>)
    requires Distinct(cs) && Distinct(cs') && forall c :: c in cs' <==> Mirror(c) in cs
    ensures multiset(cs') == multiset(MirrorAll(cs))
  {
    var m := MirrorAll(cs);
    forall i, j | 0 <= i < j < |m| ensures m[i] != m[j] {
      MirrorTwice(cs[i]);
      MirrorTwice(cs[j]);
    }
    forall c ensures c in m <==> c in cs' {
      if c in m {
        var i :| 0 <= i < |m| && m[i] == c;
        MirrorTwice(cs[i]);
        assert cs[i] in cs;
      }
      if c in cs' {
        MirrorTwice(c);
        var i :| 0 <= i < |cs| && cs[i] == Mirror(c);
        assert m[i] == c;
      }
    }
    DistinctPermutation(cs', m);
  }

  lemma MirrorExcludedLists(a: Snapshot, b: Snapshot, xs: seq<Excluded>, xs': seq<Excluded>)
    requires Distinct(xs) && Distinct(xs')
    requires forall x :: x in xs <==> x in ExcludedOf(a, b)
    requires forall x :: x in xs' <==> x in ExcludedOf(b, a)
    ensures multiset(xs') == multiset(MirrorAllExcluded(xs))
  {
    hide Effective;
    var m := MirrorAllExcluded(xs);
    forall i, j | 0 <= i < j < |m| ensures m[i] != m[j] {
      assert MirrorExcluded(m[i]) == xs[i] && MirrorExcluded(m[j]) == xs[j];
    }
    forall x ensures x in m <==> x in xs' {
      assert MirrorExcluded(MirrorExcluded(x)) == x;
      if x in m {
        var i :| 0 <= i < |m| && m[i] == x;
        assert xs[i] in xs;
      }
      if x in xs' {
        assert MirrorExcluded(x) in xs;
        var i :| 0 <= i < |xs| && xs[i] == MirrorExcluded(x);
        assert m[i] == x;
      }
    }
    DistinctPermutation(xs', m);
  }

  // ----- conservation

  // An entry of the left snapshot is the before side of one change, or excluded, not both.
  lemma BeforeOnce(a: Snapshot, b: Snapshot, lossy: Lossy, r: Report, e: Entry)
    requires WellFormed(a) && WellFormed(b) && IsReport(r, a, b, lossy) && e in a.entries
    ensures (exists c :: c in r.changes && c.before == Some(e)) <==> Excluded(Before, e) !in r.excluded
    ensures forall c, d :: c in r.changes && d in r.changes && c.before == Some(e) && d.before == Some(e) ==> c == d
  {
    hide ChangesOf, Effective;
    forall c, d | c in r.changes && d in r.changes && c.before == Some(e) && d.before == Some(e) ensures c == d {
      BeforeSideOnce(a, b, lossy, e, c, d);
    }
    ExcludedSides(a, b);
    if e.lossyName || Effective(a.entries, e) {
      var m := SomeBefore(a, b, lossy, e);
      assert m in r.changes;
    } else if c :| c in r.changes && c.before == Some(e) {
      BeforeSideListed(a, b, lossy, e, c);
    }
  }

  lemma EffectiveExact(entries: seq<Entry>)
    ensures forall e :: Effective(entries, e) ==> e in entries && !e.lossyName
  {
  }

  lemma RightSides(a: Snapshot, b: Snapshot, lossy: Lossy, next: Entry)
    ensures RightChange(a, b, lossy, next).before == None && RightChange(a, b, lossy, next).after == Some(next)
  {
  }

  // Likewise on the right, by duality: in particular no row is moved to twice.
  lemma AfterOnce(a: Snapshot, b: Snapshot, lossy: Lossy, r: Report, e: Entry)
    requires WellFormed(a) && WellFormed(b) && IsReport(r, a, b, lossy) && e in b.entries
    ensures (exists c :: c in r.changes && c.after == Some(e)) <==> Excluded(After, e) !in r.excluded
    ensures forall c, d :: c in r.changes && d in r.changes && c.after == Some(e) && d.after == Some(e) ==> c == d
  {
    hide ChangesOf, Effective;
    forall c, d | c in r.changes && d in r.changes && c.after == Some(e) && d.after == Some(e) ensures c == d {
      AfterSideOnce(a, b, lossy, e, c, d);
    }
    ExcludedSides(a, b);
    if e.lossyName || Effective(b.entries, e) {
      var m := SomeBefore(b, a, lossy, e);
      ChangesMirrored(b, a, lossy, m);
      assert Mirror(m) in r.changes && Mirror(m).after == Some(e);
    } else if c :| c in r.changes && c.after == Some(e) {
      ChangesMirrored(a, b, lossy, c);
      BeforeSideListed(b, a, lossy, e, Mirror(c));
    }
  }

  lemma ExcludedSides(a: Snapshot, b: Snapshot)
    ensures forall e :: Excluded(Before, e) in ExcludedOf(a, b) <==> e in a.entries && !e.lossyName && !Effective(a.entries, e)
    ensures forall e :: Excluded(After, e) in ExcludedOf(a, b) <==> e in b.entries && !e.lossyName && !Effective(b.entries, e)
  {
    hide Effective;
  }

  lemma BeforeSideOnce(a: Snapshot, b: Snapshot, lossy: Lossy, e: Entry, c: Change, d: Change)
    requires c in ChangesOf(a, b, lossy) && d in ChangesOf(a, b, lossy) && c.before == Some(e) && d.before == Some(e)
    ensures c == d
  {
    hide LeftChange, RightChange, Claimed, Effective;
    forall x ensures LeftChange(a, b, lossy, x).before == Some(x) && RightChange(a, b, lossy, x).before == None {
      LeftBefore(a, b, lossy, x);
      RightSides(a, b, lossy, x);
    }
    EffectiveExact(a.entries);
  }

  lemma AfterSideOnce(a: Snapshot, b: Snapshot, lossy: Lossy, e: Entry, c: Change, d: Change)
    requires WellFormed(a) && WellFormed(b)
    requires c in ChangesOf(a, b, lossy) && d in ChangesOf(a, b, lossy) && c.after == Some(e) && d.after == Some(e)
    ensures c == d && e in b.entries && (e.lossyName || Effective(b.entries, e))
  {
    hide ChangesOf, Effective;
    ChangesMirrored(a, b, lossy, c);
    ChangesMirrored(a, b, lossy, d);
    BeforeSideOnce(b, a, lossy, e, Mirror(c), Mirror(d));
    BeforeSideListed(b, a, lossy, e, Mirror(c));
    MirrorTwice(c);
    MirrorTwice(d);
  }

  lemma BeforeSideListed(a: Snapshot, b: Snapshot, lossy: Lossy, e: Entry, c: Change)
    requires c in ChangesOf(a, b, lossy) && c.before == Some(e)
    ensures e in a.entries && (e.lossyName || Effective(a.entries, e))
    ensures !e.lossyName ==> c == LeftChange(a, b, lossy, e)
  {
    hide LeftChange, RightChange, Claimed, Effective;
    forall x ensures LeftChange(a, b, lossy, x).before == Some(x) && RightChange(a, b, lossy, x).before == None {
      LeftBefore(a, b, lossy, x);
      RightSides(a, b, lossy, x);
    }
    EffectiveExact(a.entries);
  }

  lemma SomeBefore(a: Snapshot, b: Snapshot, lossy: Lossy, e: Entry) returns (c: Change)
    requires e in a.entries && (e.lossyName || Effective(a.entries, e))
    ensures c in ChangesOf(a, b, lossy) && c.before == Some(e)
  {
    hide LeftChange, Effective;
    if e.lossyName {
      c := UncertainChange(Some(e), None);
    } else {
      c := LeftChange(a, b, lossy, e);
      LeftBefore(a, b, lossy, e);
    }
  }

  lemma OneMove(a: Snapshot, b: Snapshot, lossy: Lossy, prior: Entry, x: Entry, y: Entry)
    requires IsMove(a, b, lossy, prior, x) && IsMove(a, b, lossy, prior, y)
    ensures x == y
  {
  }

  lemma OneMover(a: Snapshot, b: Snapshot, lossy: Lossy, x: Entry, y: Entry, next: Entry)
    requires IsMove(a, b, lossy, x, next) && IsMove(a, b, lossy, y, next)
    ensures x == y
  {
  }

  lemma MovedIsMove(a: Snapshot, b: Snapshot, lossy: Lossy, c: Change)
    requires c in ChangesOf(a, b, lossy) && c.kind == Moved
    ensures c.before.Some? && c.after.Some? && IsMove(a, b, lossy, c.before.value, c.after.value)
    ensures c.reason == UniqueContentCorrespondence
  {
    hide IsMove, Effective, Has, CouldHold, Claimed;
  }

  // The moves of a report match rows one to one: equal on one side, equal altogether; and
  // each pairs the only rows of both snapshots that have its content.
  lemma MovesInjective(a: Snapshot, b: Snapshot, lossy: Lossy, r: Report, c: Change, d: Change)
    requires IsReport(r, a, b, lossy) && c in r.changes && d in r.changes && c.kind == d.kind == Moved
    ensures c.before.Some? && c.after.Some? && c.before.value.path != c.after.value.path
    ensures exists h :: Unique(a, c.before.value, h) && Unique(b, c.after.value, h)
    ensures c == d <==> c.before == d.before
    ensures c == d <==> c.after == d.after
  {
    MovedIsMove(a, b, lossy, c);
    MovedIsMove(a, b, lossy, d);
    hide ChangesOf;
    var prior, next := c.before.value, c.after.value;
    assert Unique(a, prior, TrustedHash(prior).value) && Unique(b, next, TrustedHash(prior).value);
    assert Has(b.entries, next.path);
    if c.before == d.before { OneMove(a, b, lossy, prior, next, d.after.value); }
    if c.after == d.after { OneMover(a, b, lossy, prior, d.before.value, next); }
  }

  lemma {:induction false} SummaryCountsAll(cs: seq<Change>, excluded: nat)
    ensures var s := SummaryOf(cs, excluded);
            s.added + s.removed + s.moved + s.byteIdentical + s.metadataOnlyChanged + s.contentChanged + s.inconclusive == |cs|
  {
    if |cs| > 0 { SummaryCountsAll(cs[..|cs| - 1], excluded); }
  }

  // ----- replay

  // Exact-path rows as a map from path to row.
  ghost predicate IsNamespace(m: map<seq<byte>, Entry>, s: Snapshot) {
    forall p, e :: (p in m && m[p] == e) <==> (Effective(s.entries, e) && e.path == p)
  }

  function Exact(side: Option<Entry>): Option<Entry> {
    if side.Some? && !side.value.lossyName then side else None
  }

  // Delete the before side, then put the after side; lossy names are no paths.
  function Apply(m: map<seq<byte>, Entry>, c: Change): map<seq<byte>, Entry> {
    var gone := if Exact(c.before).Some? then m - {c.before.value.path} else m;
    if Exact(c.after).Some? then gone[c.after.value.path := c.after.value] else gone
  }

  function Replay(m: map<seq<byte>, Entry>, cs: seq<Change>): map<seq<byte>, Entry> {
    if |cs| == 0 then m else Apply(Replay(m, cs[..|cs| - 1]), cs[|cs| - 1])
  }

  // After the changes cs: left rows not yet deleted and right rows already put.
  ghost predicate Halfway(m: map<seq<byte>, Entry>, a: Snapshot, b: Snapshot, cs: seq<Change>) {
    forall p, e :: (p in m && m[p] == e) <==> (e.path == p && (StillThere(a, cs, e) || PutBack(cs, e)))
  }

  ghost predicate StillThere(a: Snapshot, cs: seq<Change>, e: Entry) {
    Effective(a.entries, e) && forall c :: c in cs ==> c.before != Some(e)
  }

  ghost predicate PutBack(cs: seq<Change>, e: Entry) {
    !e.lossyName && exists c :: c in cs && c.after == Some(e)
  }

  ghost predicate FromReport(a: Snapshot, b: Snapshot, lossy: Lossy, cs: seq<Change>) {
    Distinct(cs) && forall c :: c in cs ==> c in ChangesOf(a, b, lossy)
  }

  // The change of a left row whose path the right also holds puts the right row there.
  lemma SharedPath(a: Snapshot, b: Snapshot, lossy: Lossy, x: Entry, y: Entry)
    requires WellFormed(a) && WellFormed(b) && Effective(a.entries, x) && Effective(b.entries, y) && x.path == y.path
    ensures LeftChange(a, b, lossy, x) in ChangesOf(a, b, lossy)
    ensures LeftChange(a, b, lossy, x).before == Some(x) && LeftChange(a, b, lossy, x).after == Some(y)
  {
    LeftByPath(a, b, lossy, x, y);
    EffectiveIn(a.entries, x);
  }

  lemma NothingElseAt(a: Snapshot, b: Snapshot, lossy: Lossy, cs: seq<Change>, c: Change, e: Entry, y: Entry)
    requires WellFormed(a) && WellFormed(b) && FromReport(a, b, lossy, cs + [c])
    requires c.after == Some(y) && !y.lossyName && e.path == y.path && e != y
    ensures !StillThere(a, cs + [c], e) && !PutBack(cs, e)
  {
    hide ChangesOf, LeftChange, Effective;
    assert c in cs + [c] && forall d :: d in cs ==> d in cs + [c];
    AfterSideOnce(a, b, lossy, y, c, c);
    if Effective(a.entries, e) {
      SharedPath(a, b, lossy, e, y);
      AfterSideOnce(a, b, lossy, y, c, LeftChange(a, b, lossy, e));
    }
    if !e.lossyName {
      if d :| d in cs && d.after == Some(e) {
        AfterSideOnce(a, b, lossy, e, d, d);
        OneHolder(b, e, y);
        assert false;
      }
    }
  }

  lemma DeletedOnce(a: Snapshot, b: Snapshot, lossy: Lossy, cs: seq<Change>, c: Change, x: Entry)
    requires WellFormed(a) && WellFormed(b) && FromReport(a, b, lossy, cs + [c])
    requires c.before == Some(x) && !x.lossyName
    ensures StillThere(a, cs, x)
    ensures forall e: Entry :: e.path == x.path && e != x ==> !StillThere(a, cs, e) && !PutBack(cs, e)
    ensures !PutBack(cs, x)
  {
    hide ChangesOf, LeftChange, Effective;
    var all := cs + [c];
    assert c in all && forall d :: d in cs ==> d in all;
    forall j | 0 <= j < |cs| ensures cs[j] != c {
      assert all[j] != all[|cs|];
    }
    BeforeSideListed(a, b, lossy, x, c);
    forall d | d in cs ensures d.before != Some(x) {
      if d.before == Some(x) { BeforeSideOnce(a, b, lossy, x, c, d); }
    }
    forall e: Entry | e.path == x.path && Effective(a.entries, e) ensures e == x {
      OneHolder(a, e, x);
    }
    forall e: Entry, d: Change | e.path == x.path && !e.lossyName && d in cs ensures d.after != Some(e) {
      if d.after == Some(e) {
        AfterSideOnce(a, b, lossy, e, d, d);
        SharedPath(a, b, lossy, x, e);
        AfterSideOnce(a, b, lossy, e, d, c);
      }
    }
  }

  lemma ReplayStep(a: Snapshot, b: Snapshot, lossy: Lossy, m: map<seq<byte>, Entry>, cs: seq<Change>, c: Change)
    requires WellFormed(a) && WellFormed(b) && FromReport(a, b, lossy, cs + [c])
    requires Halfway(m, a, b, cs)
    ensures Halfway(Apply(m, c), a, b, cs + [c])
  {
    hide FromReport, WellFormed, Effective;
    var m', all := Apply(m, c), cs + [c];
    assert forall d :: d in all <==> d in cs || d == c;
    forall e ensures StillThere(a, all, e) <==> StillThere(a, cs, e) && c.before != Some(e) {
    }
    forall e ensures PutBack(all, e) <==> PutBack(cs, e) || (!e.lossyName && c.after == Some(e)) {
    }
    if Exact(c.before).Some? { DeletedOnce(a, b, lossy, cs, c, c.before.value); }
    LossyNeverThere(a, cs);
    if Exact(c.after).Some? {
      var y := c.after.value;
      forall e: Entry | e.path == y.path && e != y ensures !StillThere(a, all, e) && !PutBack(cs, e) {
        NothingElseAt(a, b, lossy, cs, c, e, y);
      }
    }
  }

  lemma LossyNeverThere(a: Snapshot, cs: seq<Change>)
    ensures forall e :: StillThere(a, cs, e) ==> !e.lossyName
  {
  }

  lemma {:induction false} ReplayHalfway(a: Snapshot, b: Snapshot, lossy: Lossy, m: map<seq<byte>, Entry>, cs: seq<Change>)
    requires WellFormed(a) && WellFormed(b) && IsNamespace(m, a) && FromReport(a, b, lossy, cs)
    ensures Halfway(Replay(m, cs), a, b, cs)
  {
    if |cs| > 0 {
      var front, c := cs[..|cs| - 1], cs[|cs| - 1];
      assert cs == front + [c];
      ReplayHalfway(a, b, lossy, m, front);
      ReplayStep(a, b, lossy, Replay(m, front), front, c);
    }
  }

  // Replaying the changes, in any order, on the left namespace gives the right one.
  lemma ReplayReachesAfter(a: Snapshot, b: Snapshot, lossy: Lossy, r: Report, cs: seq<Change>, m: map<seq<byte>, Entry>)
    requires WellFormed(a) && WellFormed(b) && IsReport(r, a, b, lossy)
    requires multiset(cs) == multiset(r.changes) && IsNamespace(m, a)
    ensures IsNamespace(Replay(m, cs), b)
  {
    hide ChangesOf, Effective, WellFormed;
    StrictDistinct(r.changes, ChangeKey);
    SameElements(cs, r.changes);
    ReplayHalfway(a, b, lossy, m, cs);
    forall e ensures StillThere(a, cs, e) == false && (PutBack(cs, e) <==> Effective(b.entries, e)) {
      if Effective(a.entries, e) {
        EffectiveIn(a.entries, e);
        var c := SomeBefore(a, b, lossy, e);
        assert c in cs;
      }
      if PutBack(cs, e) {
        var c :| c in cs && c.after == Some(e);
        AfterSideOnce(a, b, lossy, e, c, c);
      }
      if Effective(b.entries, e) {
        EffectiveIn(b.entries, e);
        var c := SomeBefore(b, a, lossy, e);
        ChangesMirrored(b, a, lossy, c);
        assert Mirror(c) in cs && Mirror(c).after == Some(e);
      }
    }
  }

  lemma SameElements(s: seq<Change>, t: seq<Change>)
    requires multiset(s) == multiset(t) && Distinct(t)
    ensures Distinct(s) && forall x :: x in s <==> x in t
  {
    forall x ensures x in s <==> x in t {
      assert x in s <==> x in multiset(s);
      assert x in t <==> x in multiset(t);
    }
    forall i, j | 0 <= i < j < |s| ensures s[i] != s[j] {
      if s[i] == s[j] {
        CountTwice(s, i, j);
        DistinctCount(t, s[i]);
        assert false;
      }
    }
  }

  // ----- the comparison

  // Winners of the exact paths, ascending by path as the ordered map iterates; an error for
  // a malformed snapshot.
  method Visible(s: Snapshot) returns (r: Result<map<seq<byte>, Entry>>)
    ensures r.Err? <==> Malformed(s)
    ensures r.Ok? ==> IsNamespace(r.value, s)
  {
    if s.info.state == Unavailable && s.entries != [] { return Err; }
    var ids: set<int> := {};
    var m: map<seq<byte>, Entry> := map[];
    SeenNothing();
    for k := 0 to |s.entries|
      invariant IdsSeen(ids, s.entries[..k]) && Winners(m, s.entries[..k])
    {
      var e := s.entries[k];
      assert s.entries[..k + 1] == s.entries[..k] + [e];
      if e.fileId <= 0 { return Err; }
      if e.fileId in ids {
        RepeatedId(ids, s.entries, k);
        return Err;
      }
      IdsSeenSnoc(ids, s.entries[..k], e);
      WinnersSnoc(m, s.entries[..k], e);
      ids := ids + {e.fileId};
      if !e.lossyName {
        if e.path !in m || e.fileId > m[e.path].fileId { m := m[e.path := e]; }
      }
    }
    assert s.entries[..|s.entries|] == s.entries;
    WinnersAreNamespace(m, ids, s);
    r := Ok(m);
  }

  ghost predicate IdsSeen(ids: set<int>, entries: seq<Entry>) {
    && (forall id :: id in ids <==> exists e :: e in entries && e.fileId == id)
    && (forall e :: e in entries ==> e.fileId > 0)
    && (forall i, j :: 0 <= i < j < |entries| ==> entries[i].fileId != entries[j].fileId)
  }

  ghost predicate Winners(m: map<seq<byte>, Entry>, entries: seq<Entry>) {
    && (forall p :: p in m ==> m[p] in entries && !m[p].lossyName && m[p].path == p)
    && (forall e :: e in entries && !e.lossyName ==> e.path in m && e.fileId <= m[e.path].fileId)
  }

  lemma SeenNothing()
    ensures IdsSeen({}, []) && Winners(map[], [])
  {
  }

  lemma RepeatedId(ids: set<int>, entries: seq<Entry>, k: nat)
    requires k < |entries| && IdsSeen(ids, entries[..k]) && entries[k].fileId in ids
    ensures exists i, j :: 0 <= i < j < |entries| && entries[i].fileId == entries[j].fileId
  {
    var e :| e in entries[..k] && e.fileId == entries[k].fileId;
    var i :| 0 <= i < k && entries[i] == e;
  }

  lemma IdsSeenSnoc(ids: set<int>, entries: seq<Entry>, e: Entry)
    requires IdsSeen(ids, entries) && e.fileId !in ids && e.fileId > 0
    ensures IdsSeen(ids + {e.fileId}, entries + [e])
  {
    var more := entries + [e];
    assert forall x :: x in more <==> x in entries || x == e;
    forall i, j | 0 <= i < j < |more| ensures more[i].fileId != more[j].fileId {
      assert more[i] in entries;
    }
  }

  lemma WinnersSnoc(m: map<seq<byte>, Entry>, entries: seq<Entry>, e: Entry)
    requires Winners(m, entries)
    ensures e.lossyName ==> Winners(m, entries + [e])
    ensures !e.lossyName ==>
              Winners(if e.path !in m || e.fileId > m[e.path].fileId then m[e.path := e] else m, entries + [e])
  {
    assert forall x :: x in entries + [e] <==> x in entries || x == e;
  }

  lemma WinnersAreNamespace(m: map<seq<byte>, Entry>, ids: set<int>, s: Snapshot)
    requires Winners(m, s.entries) && IdsSeen(ids, s.entries) && (s.info.state == Unavailable ==> s.entries == [])
    ensures IsNamespace(m, s) && !Malformed(s)
  {
    if !Malformed(s) { NotMalformed(s); }
    forall p, e ensures (p in m && m[p] == e) <==> (Effective(s.entries, e) && e.path == p) {
    }
  }

  // Rows whose content no other row of a complete, fully hashed snapshot has.
  method UniqueHashes(s: Snapshot) returns (unique: map<nat, Entry>)
    requires Distinct(s.entries)
    ensures forall h, e :: (h in unique && unique[h] == e) <==> Unique(s, e, h)
  {
    if s.info.state != Complete || exists e :: e in s.entries && TrustedHash(e).None? { return map[]; }
    var labels := seq(|s.entries|, i requires 0 <= i < |s.entries| => TrustedHash(s.entries[i]));
    var groups := GroupIndices(labels);
    unique := map o | o in groups.Keys && o.Some? && |groups[o]| == 1 && groups[o][0] < |s.entries|
                :: o.value := s.entries[groups[o][0]];
    forall h: nat, e ensures (h in unique && unique[h] == e) <==> Unique(s, e, h) {
      hide Unique, IndicesOf;
      SingleBucket(s, labels, h, e);
      if Some(h) !in groups { IndicesOfAbsent(labels, Some(h), |labels|); }
      assert h in unique <==> Some(h) in groups.Keys && |groups[Some(h)]| == 1 && groups[Some(h)][0] < |s.entries|;
    }
  }

  ghost predicate Hashed(s: Snapshot, labels: seq<Option<nat>>) {
    |labels| == |s.entries| && forall i :: 0 <= i < |labels| ==> labels[i] == TrustedHash(s.entries[i])
  }

  lemma SingleBucket(s: Snapshot, labels: seq<Option<nat>>, h: nat, e: Entry)
    requires s.info.state == Complete && Distinct(s.entries) && forall o :: o in s.entries ==> TrustedHash(o).Some?
    requires Hashed(s, labels)
    ensures var idx := IndicesOf(labels, Some(h), |labels|);
            Unique(s, e, h) <==> |idx| == 1 && idx[0] < |s.entries| && s.entries[idx[0]] == e
  {
    var idx := IndicesOf(labels, Some(h), |labels|);
    if |idx| == 1 && idx[0] < |s.entries| && s.entries[idx[0]] == e { SingleIsUnique(s, labels, h, e); }
    if Unique(s, e, h) { UniqueIsSingle(s, labels, h, e); }
  }

  lemma SingleIsUnique(s: Snapshot, labels: seq<Option<nat>>, h: nat, e: Entry)
    requires s.info.state == Complete && (forall o :: o in s.entries ==> TrustedHash(o).Some?) && Hashed(s, labels)
    requires var idx := IndicesOf(labels, Some(h), |labels|); |idx| == 1 && idx[0] < |s.entries| && s.entries[idx[0]] == e
    ensures Unique(s, e, h)
  {
    hide TrustedHash, IndicesOf;
    IndicesOfMembers(labels, Some(h), |labels|);
    var idx := IndicesOf(labels, Some(h), |labels|);
    assert idx[0] in idx;
    forall o | o in s.entries && TrustedHash(o) == Some(h) ensures o == e {
      var i :| 0 <= i < |s.entries| && s.entries[i] == o;
      assert i in idx;
    }
  }

  lemma UniqueIsSingle(s: Snapshot, labels: seq<Option<nat>>, h: nat, e: Entry)
    requires Unique(s, e, h) && Distinct(s.entries) && Hashed(s, labels)
    ensures var idx := IndicesOf(labels, Some(h), |labels|); |idx| == 1 && idx[0] < |s.entries| && s.entries[idx[0]] == e
  {
    hide TrustedHash, IndicesOf;
    IndicesOfMembers(labels, Some(h), |labels|);
    var idx := IndicesOf(labels, Some(h), |labels|);
    var i :| 0 <= i < |s.entries| && s.entries[i] == e;
    assert i in idx && (|idx| > 1 ==> idx[0] < idx[1]);
    forall k | 0 <= k < |idx| ensures idx[k] == i {
      assert idx[k] in idx && s.entries[idx[k]] in s.entries;
    }
  }

  // The values of a namespace, by path.
  method InPathOrder(m: map<seq<byte>, Entry>, s: Snapshot) returns (rows: seq<Entry>)
    requires IsNamespace(m, s)
    ensures Distinct(rows) && forall e :: e in rows <==> Effective(s.entries, e)
  {
    var kept: seq<Entry> := [];
    for k := 0 to |s.entries|
      invariant Distinct(kept) && forall e :: e in kept <==> e in s.entries[..k] && Effective(s.entries, e)
    {
      var e := s.entries[k];
      assert s.entries[..k + 1] == s.entries[..k] + [e];
      if e.path in m && m[e.path] == e && e !in kept { kept := kept + [e]; }
    }
    assert s.entries[..|s.entries|] == s.entries;
    EffectiveExact(s.entries);
    rows := SortBy(kept, PathKey);
    SortKeepsDistinct(kept, PathKey);
    SortByElements(kept, PathKey);
  }

  function PathKey(e: Entry): Key { Key(0, 0, e.path, 0, 0) }

  // The maps the main loop looks rows up in.
  ghost predicate Maps(left: map<seq<byte>, Entry>, right: map<seq<byte>, Entry>, ua: map<nat, Entry>, ub: map<nat, Entry>, a: Snapshot, b: Snapshot) {
    && IsNamespace(left, a) && IsNamespace(right, b) && WellFormed(a) && WellFormed(b)
    && (forall h, e :: (h in ua && ua[h] == e) <==> Unique(a, e, h))
    && (forall h, e :: (h in ub && ub[h] == e) <==> Unique(b, e, h))
  }

  lemma NamespaceHas(m: map<seq<byte>, Entry>, s: Snapshot, path: seq<byte>)
    requires IsNamespace(m, s)
    ensures path in m <==> Has(s.entries, path)
    ensures path in m ==> Effective(s.entries, m[path]) && m[path].path == path
  {
    hide Effective;
    if path in m { assert Effective(s.entries, m[path]) && m[path].path == path; }
    if e :| Effective(s.entries, e) && e.path == path { assert path in m && m[path] == e; }
  }

  method LeftRow(a: Snapshot, b: Snapshot, lossy: Lossy, left: map<seq<byte>, Entry>, right: map<seq<byte>, Entry>,
                 ua: map<nat, Entry>, ub: map<nat, Entry>, prior: Entry)
    returns (c: Change)
    requires Maps(left, right, ua, ub, a, b) && Effective(a.entries, prior)
    ensures c == LeftChange(a, b, lossy, prior)
  {
    hide LeftChange;
    var compatible := Compatible(a, b);
    NamespaceHas(right, b, prior.path);
    if prior.path in right {
      var next := right[prior.path];
      var (kind, reason) := if compatible then SamePath(prior, next) else (Inconclusive, IncompatibleSnapshots);
      LeftByPath(a, b, lossy, prior, next);
      return Change(kind, reason, Some(prior), Some(next));
    }
    if CouldHold(b.entries, lossy, prior.path) {
      LeftOtherwise(a, b, lossy, prior);
      return UncertainChange(Some(prior), None);
    }
    var hash := TrustedHash(prior);
    if hash.Some? && compatible && prior.size != 0 && hash.value in ua && hash.value in ub {
      var next := ub[hash.value];
      NamespaceHas(left, a, next.path);
      NamespaceHas(right, b, next.path);
      if next.path !in left && !CouldHold(a.entries, lossy, next.path)
         && next.path in right && right[next.path].fileId == next.fileId && prior.size == next.size {
        MoveFound(a, b, lossy, ua, ub, left, right, prior, next);
        LeftByMove(a, b, lossy, prior, next);
        return Change(Moved, UniqueContentCorrespondence, Some(prior), Some(next));
      }
    }
    NoMoveFound(a, b, lossy, left, right, ua, ub, prior);
    LeftOtherwise(a, b, lossy, prior);
    var (kind, reason) := Absence(b.info, compatible, Removed);
    c := Change(kind, reason, Some(prior), None);
  }

  lemma MoveFound(a: Snapshot, b: Snapshot, lossy: Lossy, ua: map<nat, Entry>, ub: map<nat, Entry>,
                  left: map<seq<byte>, Entry>, right: map<seq<byte>, Entry>, prior: Entry, next: Entry)
    requires Maps(left, right, ua, ub, a, b) && Effective(a.entries, prior) && Compatible(a, b)
    requires prior.path !in right && !CouldHold(b.entries, lossy, prior.path)
    requires TrustedHash(prior).Some? && TrustedHash(prior).value in ua && TrustedHash(prior).value in ub && ub[TrustedHash(prior).value] == next
    requires next.path !in left && !CouldHold(a.entries, lossy, next.path)
    requires next.path in right && right[next.path].fileId == next.fileId && prior.size == next.size != 0
    ensures IsMove(a, b, lossy, prior, next)
  {
    var h := TrustedHash(prior).value;
    NamespaceHas(right, b, next.path);
    NamespaceHas(right, b, prior.path);
    NamespaceHas(left, a, next.path);
    assert Unique(a, ua[h], h) && Unique(b, next, h);
    EffectiveIn(a.entries, prior);
    EffectiveIn(b.entries, right[next.path]);
  }

  lemma NoMoveFound(a: Snapshot, b: Snapshot, lossy: Lossy, left: map<seq<byte>, Entry>, right: map<seq<byte>, Entry>,
                    ua: map<nat, Entry>, ub: map<nat, Entry>, prior: Entry)
    requires Maps(left, right, ua, ub, a, b)
    requires var hash := TrustedHash(prior);
             !(hash.Some? && Compatible(a, b) && prior.size != 0 && hash.value in ua && hash.value in ub
               && var next := ub[hash.value];
                  next.path !in left && !CouldHold(a.entries, lossy, next.path)
                  && next.path in right && right[next.path].fileId == next.fileId && prior.size == next.size)
    ensures forall next :: !IsMove(a, b, lossy, prior, next)
  {
    forall next ensures !IsMove(a, b, lossy, prior, next) {
      if IsMove(a, b, lossy, prior, next) {
        var h := TrustedHash(prior).value;
        assert Unique(a, prior, h) && Unique(b, next, h);
        NamespaceHas(left, a, next.path);
        NamespaceHas(right, b, next.path);
        assert false;
      }
    }
  }

  lemma LeftOtherwise(a: Snapshot, b: Snapshot, lossy: Lossy, prior: Entry)
    requires !Has(b.entries, prior.path) && forall n :: !IsMove(a, b, lossy, prior, n) || CouldHold(b.entries, lossy, prior.path)
    ensures LeftChange(a, b, lossy, prior) ==
              if CouldHold(b.entries, lossy, prior.path) then UncertainChange(Some(prior), None)
              else var (kind, reason) := Absence(b.info, Compatible(a, b), Removed); Change(kind, reason, Some(prior), None)
  {
  }

  ghost function LeftSet(a: Snapshot, b: Snapshot, lossy: Lossy): set<Change> {
    set e | e in a.entries && Effective(a.entries, e) :: LeftChange(a, b, lossy, e)
  }

  method LeftChanges(a: Snapshot, b: Snapshot, lossy: Lossy, left: map<seq<byte>, Entry>, right: map<seq<byte>, Entry>,
                     ua: map<nat, Entry>, ub: map<nat, Entry>)
    returns (changes: seq<Change>, used: set<int>)
    requires Maps(left, right, ua, ub, a, b)
    ensures Collects(changes, LeftSet(a, b, lossy))
    ensures forall e :: Effective(b.entries, e) ==> (e.fileId in used <==> Claimed(a, b, lossy, e))
  {
    hide Maps, Effective, LeftChange;
    var rows := OrderedRows(a, b, left, right, ua, ub);
    changes, used := [], {};
    for k := 0 to |rows|
      invariant |changes| == k && forall j :: 0 <= j < k ==> changes[j] == LeftChange(a, b, lossy, rows[j])
      invariant forall id :: id in used <==> exists j :: 0 <= j < k && changes[j].after.Some? && changes[j].after.value.fileId == id
    {
      assert rows[k] in rows;
      var c := LeftRow(a, b, lossy, left, right, ua, ub, rows[k]);
      changes := changes + [c];
      if c.after.Some? { used := used + {c.after.value.fileId}; }
    }
    LeftListed(a, b, lossy, rows, changes);
    UsedIsClaimed(a, b, lossy, left, right, ua, ub, rows, changes, used);
  }

  method OrderedRows(a: Snapshot, b: Snapshot, left: map<seq<byte>, Entry>, right: map<seq<byte>, Entry>,
                     ghost ua: map<nat, Entry>, ghost ub: map<nat, Entry>)
    returns (rows: seq<Entry>)
    requires Maps(left, right, ua, ub, a, b)
    ensures Distinct(rows) && forall e :: e in rows <==> Effective(a.entries, e)
  {
    rows := InPathOrder(left, a);
  }

  lemma LeftListed(a: Snapshot, b: Snapshot, lossy: Lossy, rows: seq<Entry>, changes: seq<Change>)
    requires Distinct(rows) && forall e :: e in rows <==> Effective(a.entries, e)
    requires |changes| == |rows| && forall j :: 0 <= j < |rows| ==> changes[j] == LeftChange(a, b, lossy, rows[j])
    ensures Collects(changes, LeftSet(a, b, lossy))
  {
    hide LeftChange, Effective;
    forall e ensures LeftChange(a, b, lossy, e).before == Some(e) {
      LeftBefore(a, b, lossy, e);
    }
    EffectiveExact(a.entries);
    forall c ensures c in changes <==> c in LeftSet(a, b, lossy) {
      if c in changes {
        var j :| 0 <= j < |changes| && changes[j] == c;
        assert rows[j] in rows;
      }
      if c in LeftSet(a, b, lossy) {
        var e :| Effective(a.entries, e) && c == LeftChange(a, b, lossy, e);
        assert e in rows;
        var j :| 0 <= j < |rows| && rows[j] == e;
        assert changes[j] == c;
      }
    }
    forall i, j | 0 <= i < j < |changes| ensures changes[i] != changes[j] {
      assert changes[i].before == Some(rows[i]) && changes[j].before == Some(rows[j]);
    }
  }

  lemma UsedIsClaimed(a: Snapshot, b: Snapshot, lossy: Lossy, left: map<seq<byte>, Entry>, right: map<seq<byte>, Entry>,
                      ua: map<nat, Entry>, ub: map<nat, Entry>, rows: seq<Entry>, changes: seq<Change>, used: set<int>)
    requires Maps(left, right, ua, ub, a, b)
    requires forall e :: e in rows <==> Effective(a.entries, e)
    requires |changes| == |rows| && forall j :: 0 <= j < |rows| ==> changes[j] == LeftChange(a, b, lossy, rows[j])
    requires forall id :: id in used <==> exists j :: 0 <= j < |changes| && changes[j].after.Some? && changes[j].after.value.fileId == id
    ensures forall e :: Effective(b.entries, e) ==> (e.fileId in used <==> Claimed(a, b, lossy, e))
  {
    hide LeftChange, Effective, IsNamespace, Unique;
    forall e | Effective(b.entries, e) ensures e.fileId in used <==> Claimed(a, b, lossy, e) {
      EffectiveIn(b.entries, e);
      if e.fileId in used {
        var j :| 0 <= j < |changes| && changes[j].after.Some? && changes[j].after.value.fileId == e.fileId;
        assert rows[j] in rows;
        LeftMatched(a, b, lossy, rows[j], changes[j].after.value);
        EffectiveIn(b.entries, changes[j].after.value);
        assert changes[j].after == Some(e);
      }
      if Claimed(a, b, lossy, e) {
        var prior :| Effective(a.entries, prior) && LeftChange(a, b, lossy, prior).after == Some(e);
        assert prior in rows;
        var j :| 0 <= j < |rows| && rows[j] == prior;
        assert changes[j].after == Some(e);
      }
    }
  }

  ghost function RightSet(a: Snapshot, b: Snapshot, lossy: Lossy): set<Change> {
    set e | e in b.entries && Effective(b.entries, e) && !Claimed(a, b, lossy, e) :: RightChange(a, b, lossy, e)
  }

  method RightChanges(a: Snapshot, b: Snapshot, lossy: Lossy, right: map<seq<byte>, Entry>, used: set<int>)
    returns (changes: seq<Change>)
    requires IsNamespace(right, b)
    requires forall e :: Effective(b.entries, e) ==> (e.fileId in used <==> Claimed(a, b, lossy, e))
    ensures Collects(changes, RightSet(a, b, lossy))
  {
    hide Effective, Claimed, RightChange, Distinct;
    var rows := InPathOrder(right, b);
    NoRepeats(rows);
    EffectiveExact(b.entries);
    changes := [];
    for k := 0 to |rows|
      invariant Distinct(changes)
      invariant forall c :: c in changes <==> exists e :: e in rows[..k] && !Claimed(a, b, lossy, e) && c == RightChange(a, b, lossy, e)
    {
      var e := rows[k];
      assert e in rows && rows[..k + 1] == rows[..k] + [e];
      forall x ensures RightChange(a, b, lossy, x).after == Some(x) {
        RightSides(a, b, lossy, x);
      }
      assert RightChange(a, b, lossy, e) !in changes;
      if e.fileId !in used {
        DistinctSnoc(changes, RightChange(a, b, lossy, e));
        changes := changes + [RightChange(a, b, lossy, e)];
      }
    }
    assert rows[..|rows|] == rows;
  }

  // Rows whose stored name is lossy, each on its own.
  method LossyChanges(s: Snapshot, side: Side) returns (changes: seq<Change>)
    requires Distinct(s.entries)
    ensures Collects(changes, set e | e in s.entries && e.lossyName :: Alone(side, e))
  {
    hide Distinct;
    NoRepeats(s.entries);
    changes := [];
    for k := 0 to |s.entries|
      invariant Distinct(changes)
      invariant forall c :: c in changes <==> exists e :: e in s.entries[..k] && e.lossyName && c == Alone(side, e)
    {
      var e := s.entries[k];
      assert s.entries[..k + 1] == s.entries[..k] + [e];
      if e.lossyName {
        DistinctSnoc(changes, Alone(side, e));
        changes := changes + [Alone(side, e)];
      }
    }
    assert s.entries[..|s.entries|] == s.entries;
  }

  lemma NoRepeats<T(!new)>(s: seq<T>)
    requires Distinct(s)
    ensures forall k :: 0 <= k < |s| ==> s[k] !in s[..k]
    ensures Distinct<Change>([]) && Distinct<Excluded>([])
  {
  }

  function Alone(side: Side, e: Entry): Change {
    if side == Before then UncertainChange(Some(e), None) else UncertainChange(None, Some(e))
  }

  method ExcludedRows(s: Snapshot, m: map<seq<byte>, Entry>, side: Side) returns (xs: seq<Excluded>)
    requires Distinct(s.entries) && WellFormed(s) && IsNamespace(m, s)
    ensures Collects(xs, set e | e in s.entries && !e.lossyName && !Effective(s.entries, e) :: Excluded(side, e))
  {
    hide Effective, Distinct, WellFormed;
    xs := [];
    NoRepeats(s.entries);
    for k := 0 to |s.entries|
      invariant Distinct(xs)
      invariant forall x :: x in xs <==> exists e :: e in s.entries[..k] && !e.lossyName && !Effective(s.entries, e) && x == Excluded(side, e)
    {
      var e := s.entries[k];
      assert s.entries[..k + 1] == s.entries[..k] + [e];
      if !e.lossyName {
        PathIsHeld(s, m, e);
        if m[e.path].fileId != e.fileId {
          DistinctSnoc(xs, Excluded(side, e));
          xs := xs + [Excluded(side, e)];
        }
      }
    }
    assert s.entries[..|s.entries|] == s.entries;
  }

  lemma PathIsHeld(s: Snapshot, m: map<seq<byte>, Entry>, e: Entry)
    requires IsNamespace(m, s) && WellFormed(s) && e in s.entries && !e.lossyName
    ensures e.path in m && (m[e.path].fileId != e.fileId <==> !Effective(s.entries, e))
  {
    HighestExists(s, e.path, s.entries, e);
    NamespaceHas(m, s, e.path);
  }

  lemma {:induction false} HighestExists(s: Snapshot, path: seq<byte>, among: seq<Entry>, e: Entry)
    requires e in among && !e.lossyName && e.path == path
    requires forall x :: x in among ==> x in s.entries
    requires forall x :: x in s.entries && x !in among && !x.lossyName && x.path == path ==> exists y :: y in among && !y.lossyName && y.path == path && y.fileId >= x.fileId
    ensures Has(s.entries, path)
    decreases |among|
  {
    if o :| o in among && !o.lossyName && o.path == path && o.fileId > e.fileId {
      var i :| 0 <= i < |among| && among[i] == e;
      var rest := among[..i] + among[i + 1..];
      assert forall x :: x in among <==> x in rest || x == e;
      HighestExists(s, path, rest, o);
    } else {
      assert Effective(s.entries, e);
    }
  }

  // Distinct changes have distinct keys, so the order of the report is total.
  lemma ChangeKeysInjective(a: Snapshot, b: Snapshot, lossy: Lossy)
    requires !Malformed(a) && !Malformed(b)
    ensures forall c, d :: c in ChangesOf(a, b, lossy) && d in ChangesOf(a, b, lossy) && ChangeKey(c) == ChangeKey(d) ==> c == d
  {
    hide ChangesOf, Malformed;
    NotMalformed(a);
    NotMalformed(b);
    forall c, d | c in ChangesOf(a, b, lossy) && d in ChangesOf(a, b, lossy) && ChangeKey(c) == ChangeKey(d) ensures c == d {
      SidesKnown(a, b, lossy, c);
      SidesKnown(a, b, lossy, d);
      if c.after.Some? {
        assert d.after == c.after;
        AfterSideOnce(a, b, lossy, c.after.value, c, d);
      } else {
        assert d.before == c.before;
        BeforeSideOnce(a, b, lossy, c.before.value, c, d);
      }
    }
  }

  lemma SidesKnown(a: Snapshot, b: Snapshot, lossy: Lossy, c: Change)
    requires c in ChangesOf(a, b, lossy)
    ensures c.before.Some? ==> c.before.value in a.entries
    ensures c.after.Some? ==> c.after.value in b.entries
    ensures c.before.Some? || c.after.Some?
  {
    hide LeftChange, RightChange, Effective, Claimed;
    EffectiveExact(a.entries);
    EffectiveExact(b.entries);
    forall e ensures LeftChange(a, b, lossy, e).before == Some(e) {
      LeftBefore(a, b, lossy, e);
    }
    forall e ensures RightChange(a, b, lossy, e).before == None && RightChange(a, b, lossy, e).after == Some(e) {
      RightSides(a, b, lossy, e);
    }
    forall e, n | LeftChange(a, b, lossy, e).after == Some(n) ensures Effective(b.entries, n) {
      LeftMatched(a, b, lossy, e, n);
    }
  }

  method Summarize(changes: seq<Change>, excluded: nat) returns (s: Summary)
    ensures s == SummaryOf(changes, excluded)
  {
    hide CountKind;
    s := Summary(0, 0, 0, 0, 0, 0, 0, excluded);
    CountNone();
    for k := 0 to |changes|
      invariant s == SummaryOf(changes[..k], excluded)
    {
      forall kind ensures CountKind(changes[..k + 1], kind) == CountKind(changes[..k], kind) + (if changes[k].kind == kind then 1 else 0) {
        CountSnoc(changes, k, kind);
      }
      match changes[k].kind {
        case Added => s := s.(added := s.added + 1);
        case Removed => s := s.(removed := s.removed + 1);
        case Moved => s := s.(moved := s.moved + 1);
        case ByteIdentical => s := s.(byteIdentical := s.byteIdentical + 1);
        case MetadataOnlyChanged => s := s.(metadataOnlyChanged := s.metadataOnlyChanged + 1);
        case ContentChanged => s := s.(contentChanged := s.contentChanged + 1);
        case Inconclusive => s := s.(inconclusive := s.inconclusive + 1);
      }
    }
    assert changes[..|changes|] == changes;
  }

  lemma CountNone()
    ensures forall kind :: CountKind([], kind) == 0
  {
  }

  lemma CountSnoc(changes: seq<Change>, k: nat, kind: Kind)
    requires k < |changes|
    ensures CountKind(changes[..k + 1], kind) == CountKind(changes[..k], kind) + (if changes[k].kind == kind then 1 else 0)
  {
    assert changes[..k + 1][..k] == changes[..k];
  }

  method CollectChanges(a: Snapshot, b: Snapshot, lossy: Lossy, left: map<seq<byte>, Entry>, right: map<seq<byte>, Entry>)
    returns (changes: seq<Change>)
    requires !Malformed(a) && !Malformed(b) && IsNamespace(left, a) && IsNamespace(right, b)
    ensures Collects(changes, ChangesOf(a, b, lossy))
  {
    hide Malformed, IsNamespace, LeftChange, RightChange, Effective, Claimed, Unique;
    NotMalformed(a);
    NotMalformed(b);
    var ua := UniqueHashes(a);
    var ub := UniqueHashes(b);
    var matched, used := LeftChanges(a, b, lossy, left, right, ua, ub);
    var unmatched := RightChanges(a, b, lossy, right, used);
    var lossyLeft := LossyChanges(a, Before);
    var lossyRight := LossyChanges(b, After);
    ChangeSetsApart(a, b, lossy);
    DistinctConcat(matched, unmatched);
    DistinctConcat(matched + unmatched, lossyLeft);
    DistinctConcat(matched + unmatched + lossyLeft, lossyRight);
    changes := matched + unmatched + lossyLeft + lossyRight;
  }

  lemma ChangeSetsApart(a: Snapshot, b: Snapshot, lossy: Lossy)
    ensures var l, r := LeftSet(a, b, lossy), RightSet(a, b, lossy);
            var ll, lr := (set e | e in a.entries && e.lossyName :: Alone(Before, e)), (set e | e in b.entries && e.lossyName :: Alone(After, e));
            && l !! r && l + r !! ll && l + r + ll !! lr
            && ChangesOf(a, b, lossy) == l + r + ll + lr
  {
    hide LeftChange, RightChange, Effective, Claimed;
    EffectiveExact(a.entries);
    EffectiveExact(b.entries);
    forall e ensures LeftChange(a, b, lossy, e).before == Some(e) {
      LeftBefore(a, b, lossy, e);
    }
    forall e ensures RightChange(a, b, lossy, e).before == None && RightChange(a, b, lossy, e).after == Some(e) {
      RightSides(a, b, lossy, e);
    }
  }

  method CollectExcluded(a: Snapshot, b: Snapshot, left: map<seq<byte>, Entry>, right: map<seq<byte>, Entry>)
    returns (xs: seq<Excluded>)
    requires !Malformed(a) && !Malformed(b) && IsNamespace(left, a) && IsNamespace(right, b)
    ensures Collects(xs, ExcludedOf(a, b))
  {
    hide Malformed, IsNamespace, Effective;
    NotMalformed(a);
    NotMalformed(b);
    var before := ExcludedRows(a, left, Before);
    var after := ExcludedRows(b, right, After);
    DistinctConcat(before, after);
    xs := before + after;
  }

  lemma ExcludedKeysInjective(a: Snapshot, b: Snapshot)
    requires !Malformed(a) && !Malformed(b)
    ensures forall x, y :: x in ExcludedOf(a, b) && y in ExcludedOf(a, b) && ExcludedKey(x) == ExcludedKey(y) ==> x == y
  {
    hide Malformed, Effective;
    NotMalformed(a);
    NotMalformed(b);
  }

  method Compare(a: Snapshot, b: Snapshot, lossy: Lossy) returns (r: Result<Report>)
    ensures r.Err? <==> Malformed(a) || Malformed(b)
    ensures r.Ok? ==> IsReport(r.value, a, b, lossy)
  {
    hide Malformed, IsNamespace, ChangesOf, ExcludedOf, SummaryOf, StateOf;
    var left := Visible(a);
    if left.Err? { return Err; }
    var right := Visible(b);
    if right.Err? { return Err; }
    var xs := CollectExcluded(a, b, left.value, right.value);
    var cs := CollectChanges(a, b, lossy, left.value, right.value);
    ChangeKeysInjective(a, b, lossy);
    ExcludedKeysInjective(a, b);
    SortedLists(cs, ChangesOf(a, b, lossy), ChangeKey);
    SortedLists(xs, ExcludedOf(a, b), ExcludedKey);
    var changes, excluded := SortBy(cs, ChangeKey), SortBy(xs, ExcludedKey);
    var summary := Summarize(changes, |excluded|);
    r := Ok(Report(StateOf(a, b, summary.inconclusive), changes, excluded, summary));
  }
}
