/**
 Which content lives in which sources, and how sure that is (src/core/coverage.rs).

 A row's fate is stated once, over a source as a set of rows; the grouping loop is proved
 to list exactly those fates, so neither the order of the sources nor of their rows shows.
 */
module Coverage {
  import opened Basics
  import opened Order

  datatype Evidence = Complete | Incomplete | Unavailable | NoContentHashes | Unreachable

  datatype EntryKind = File | Hardlink | Symlink

  // Content hashes are compared, never inverted; a number stands for the 32 bytes.
  datatype Row = Row(
    fileId: int, path: seq<byte>, entry: EntryKind, size: Option<nat>, hash: Option<nat>,
    readError: bool, paxUnparsed: bool, sparse: bool, lossyName: bool)

  datatype Source = Source(id: int, name: string, evidence: Evidence, rows: seq<Row>)

  datatype RowRef = RowRef(sourceId: int, path: seq<byte>, fileId: int)

  datatype UnknownReason = ReadError | PaxUnparsed | UnsupportedSparse | LegacyNameUncertain | NotHashed

  datatype ExclusionReason = ShadowedRow | SymlinkRow | UnmatchedHardlink

  datatype UnknownContent = UnknownContent(ref: RowRef, size: Option<nat>, reason: UnknownReason)

  datatype Exclusion = Exclusion(ref: RowRef, reason: ExclusionReason)

  datatype PresenceReason =
    SourceUnavailable | SourceIncomplete | SourceHasNoContentHashes | SourceUnreachable | UnhashedRowsMayMatch(rows: nat)

  datatype Presence = Present(copies: nat) | Absent | Unknown(why: PresenceReason)

  datatype SourcePresence = SourcePresence(sourceId: int, presence: Presence)

  datatype ReplicaCount = Exact(n: nat) | AtLeast(n: nat)

  datatype ContentGroup = ContentGroup(
    hash: nat, size: Option<nat>, replicas: ReplicaCount,
    presence: seq<SourcePresence>, copies: seq<RowRef>, aliases: seq<RowRef>)

  datatype SourceInfo = SourceInfo(id: int, name: string, evidence: Evidence)

  datatype Coverage = Coverage(
    sources: seq<SourceInfo>, groups: seq<ContentGroup>,
    unknownContent: seq<UnknownContent>, exclusions: seq<Exclusion>)

  // ----- row fates

  datatype Catalog = Catalog(info: SourceInfo, rows: set<Row>)

  datatype Fate = Copy(hash: nat) | Alias(hash: nat) | Unexplained(reason: UnknownReason) | Excluded(why: ExclusionReason)

  function CatalogOf(s: Source): Catalog {
    Catalog(SourceInfo(s.id, s.name, s.evidence), RowSet(s.rows))
  }

  function RowSet(rows: seq<Row>): set<Row> {
    set r | r in rows
  }

  function CatalogsOf(sources: seq<Source>): set<Catalog> {
    set s | s in sources :: CatalogOf(s)
  }

  predicate UntrustedHash(r: Row) {
    r.readError || r.paxUnparsed
  }

  function TrustedSize(r: Row): Option<nat> {
    if r.sparse || r.paxUnparsed || r.readError then None else r.size
  }

  // A later row at the same exact path wins. A lossy name neither shadows nor is shadowed.
  predicate Shadowed(rows: set<Row>, r: Row) {
    !r.lossyName && exists r' :: r' in rows && !r'.lossyName && r'.path == r.path && r'.fileId > r.fileId
  }

  predicate IsCopy(rows: set<Row>, r: Row, h: nat) {
    !Shadowed(rows, r) && r.entry == File && r.hash == Some(h) && !UntrustedHash(r) && !r.lossyName
  }

  function WhyUnknown(r: Row): UnknownReason {
    if r.readError then ReadError
    else if r.paxUnparsed then PaxUnparsed
    else if r.sparse then UnsupportedSparse
    else if r.lossyName then LegacyNameUncertain
    else NotHashed
  }

  function FateOf(rows: set<Row>, r: Row): Fate {
    if Shadowed(rows, r) then Excluded(ShadowedRow)
    else match r.entry
      case Symlink => Excluded(SymlinkRow)
      case Hardlink =>
        if r.hash.Some? && exists c :: c in rows && IsCopy(rows, c, r.hash.value) then Alias(r.hash.value)
        else Excluded(UnmatchedHardlink)
      case File =>
        if r.hash.Some? && !UntrustedHash(r) && !r.lossyName then Copy(r.hash.value)
        else Unexplained(WhyUnknown(r))
  }

  function RefOf(c: Catalog, r: Row): RowRef {
    RowRef(c.info.id, r.path, r.fileId)
  }

  function RefKey(ref: RowRef): Key {
    Key(0, ref.sourceId, ref.path, ref.fileId, 0)
  }

  // Rows with their sources; everything the report lists is a projection of such a set.
  type Items = set<(Catalog, Row)>

  ghost function AllItems(cs: set<Catalog>): Items {
    set c, r | c in cs && r in c.rows :: (c, r)
  }

  ghost function Refs(items: Items, fate: Fate): set<RowRef> {
    set i | i in items && FateOf(i.0.rows, i.1) == fate :: RefOf(i.0, i.1)
  }

  ghost function RefsIn(items: Items, fate: Fate, sourceId: int): set<RowRef> {
    set i | i in items && i.0.info.id == sourceId && FateOf(i.0.rows, i.1) == fate :: RefOf(i.0, i.1)
  }

  ghost function SizesOf(items: Items, h: nat): set<nat> {
    set i | i in items && FateOf(i.0.rows, i.1) == Copy(h) && TrustedSize(i.1).Some? :: TrustedSize(i.1).value
  }

  ghost function UnknownsOf(items: Items): set<UnknownContent> {
    set i | i in items && FateOf(i.0.rows, i.1).Unexplained?
      :: UnknownContent(RefOf(i.0, i.1), i.1.size, FateOf(i.0.rows, i.1).reason)
  }

  ghost function ExclusionsOf(items: Items): set<Exclusion> {
    set i | i in items && FateOf(i.0.rows, i.1).Excluded? :: Exclusion(RefOf(i.0, i.1), FateOf(i.0.rows, i.1).why)
  }

  ghost function HashesOf(items: Items): set<nat> {
    set i | i in items && FateOf(i.0.rows, i.1).Copy? :: FateOf(i.0.rows, i.1).hash
  }

  // ----- presence

  ghost function OnlySize(sizes: set<nat>): Option<nat> {
    if |sizes| == 1 then (var n :| n in sizes; Some(n)) else None
  }

  predicate CouldBe(r: Row, size: Option<nat>) {
    TrustedSize(r).None? || size.None? || TrustedSize(r) == size
  }

  ghost function Suspects(c: Catalog, size: Option<nat>): set<Row> {
    set r | r in c.rows && FateOf(c.rows, r).Unexplained? && CouldBe(r, size)
  }

  ghost function CopiesIn(c: Catalog, h: nat): set<Row> {
    set r | r in c.rows && FateOf(c.rows, r) == Copy(h)
  }

  ghost function PresenceOf(c: Catalog, h: nat, size: Option<nat>): Presence {
    if c.info.evidence == Unreachable then Unknown(SourceUnreachable)
    else if |CopiesIn(c, h)| > 0 then Present(|CopiesIn(c, h)|)
    else match c.info.evidence
      case Unavailable => Unknown(SourceUnavailable)
      case Unreachable => Unknown(SourceUnreachable)
      case Incomplete => Unknown(SourceIncomplete)
      case NoContentHashes => Unknown(SourceHasNoContentHashes)
      case Complete => if |Suspects(c, size)| == 0 then Absent else Unknown(UnhashedRowsMayMatch(|Suspects(c, size)|))
  }

  // ----- what a coverage report must be

  function InfoKey(i: SourceInfo): Key { Key(0, i.id, [], 0, 0) }

  function GroupKey(g: ContentGroup): Key { Key(0, g.hash, [], 0, 0) }

  function UnknownKey(u: UnknownContent): Key { RefKey(u.ref) }

  function ExclusionKey(e: Exclusion): Key { RefKey(e.ref) }

  ghost predicate IsPresenceList(ps: seq<SourcePresence>, cs: set<Catalog>, infos: seq<SourceInfo>, h: nat, size: Option<nat>) {
    |ps| == |infos| &&
    forall k, c :: 0 <= k < |ps| && c in cs && c.info == infos[k] ==> ps[k] == SourcePresence(c.info.id, PresenceOf(c, h, size))
  }

  function PresentCount(ps: seq<SourcePresence>): nat {
    if |ps| == 0 then 0 else PresentCount(ps[..|ps| - 1]) + (if ps[|ps| - 1].presence.Present? then 1 else 0)
  }

  predicate AnyUnknown(ps: seq<SourcePresence>) {
    exists p :: p in ps && p.presence.Unknown?
  }

  function CountReplicas(ps: seq<SourcePresence>): ReplicaCount {
    if AnyUnknown(ps) then AtLeast(PresentCount(ps)) else Exact(PresentCount(ps))
  }

  ghost predicate IsGroup(g: ContentGroup, cs: set<Catalog>, infos: seq<SourceInfo>) {
    var items := AllItems(cs);
    && g.size == OnlySize(SizesOf(items, g.hash))
    && IsPresenceList(g.presence, cs, infos, g.hash, g.size)
    && g.replicas == CountReplicas(g.presence)
    && Lists(g.copies, Refs(items, Copy(g.hash)), RefKey)
    && Lists(g.aliases, Refs(items, Alias(g.hash)), RefKey)
  }

  ghost predicate IsCoverage(cov: Coverage, cs: set<Catalog>) {
    var items := AllItems(cs);
    && Lists(cov.sources, set c | c in cs :: c.info, InfoKey)
    && StrictlySortedBy(cov.groups, GroupKey)
    && (forall h :: h in HashesOf(items) <==> exists g :: g in cov.groups && g.hash == h)
    && (forall g :: g in cov.groups ==> IsGroup(g, cs, cov.sources))
    && Lists(cov.unknownContent, UnknownsOf(items), UnknownKey)
    && Lists(cov.exclusions, ExclusionsOf(items), ExclusionKey)
  }

  ghost predicate IdsDistinct(cs: set<Catalog>) {
    forall c, d :: c in cs && d in cs && c.info.id == d.info.id ==> c == d
  }

  // The report is determined by the sources as sets of rows.
  lemma CoverageUnique(cov: Coverage, cov': Coverage, cs: set<Catalog>)
    requires IsCoverage(cov, cs) && IsCoverage(cov', cs) && IdsDistinct(cs)
    ensures cov == cov'
  {
    StrictUnique(cov.sources, cov'.sources, InfoKey);
    StrictUnique(cov.unknownContent, cov'.unknownContent, UnknownKey);
    StrictUnique(cov.exclusions, cov'.exclusions, ExclusionKey);
    GroupsSubset(cov, cov', cs);
    GroupsSubset(cov', cov, cs);
    StrictUnique(cov.groups, cov'.groups, GroupKey);
  }

  lemma GroupsSubset(cov: Coverage, cov': Coverage, cs: set<Catalog>)
    requires IsCoverage(cov, cs) && IsCoverage(cov', cs) && cov.sources == cov'.sources
    ensures forall g :: g in cov.groups ==> g in cov'.groups
  {
    hide IsGroup, HashesOf;
    forall i | i in cov.sources ensures HasInfo(cs, i) {
      assert i in set c | c in cs :: c.info;
    }
    forall g | g in cov.groups ensures g in cov'.groups {
      assert g.hash in HashesOf(AllItems(cs));
      var g' :| g' in cov'.groups && g'.hash == g.hash;
      GroupUnique(g, g', cs, cov.sources);
    }
  }

  ghost predicate HasInfo(cs: set<Catalog>, i: SourceInfo) {
    exists c :: c in cs && c.info == i
  }

  lemma GroupUnique(g: ContentGroup, g': ContentGroup, cs: set<Catalog>, infos: seq<SourceInfo>)
    requires IsGroup(g, cs, infos) && IsGroup(g', cs, infos) && g.hash == g'.hash
    requires forall i :: i in infos ==> HasInfo(cs, i)
    ensures g == g'
  {
    StrictUnique(g.copies, g'.copies, RefKey);
    StrictUnique(g.aliases, g'.aliases, RefKey);
    forall k | 0 <= k < |infos| ensures g.presence[k] == g'.presence[k] {
      assert HasInfo(cs, infos[k]);
      var c :| c in cs && c.info == infos[k];
    }
    assert g.presence == g'.presence;
  }

  // ----- unknown rows of one source, bucketed by size

  ghost function WithSize(rows: set<Row>, size: Option<nat>): set<Row> {
    set r | r in rows && TrustedSize(r) == size
  }

  ghost function Matching(rows: set<Row>, size: Option<nat>): set<Row> {
    set r | r in rows && CouldBe(r, size)
  }

  class UnknownRows {
    var untrusted: nat
    var bySize: map<nat, nat>
    var trusted: nat
    ghost var rows: set<Row>

    ghost predicate Valid()
      reads this
    {
      && untrusted == |WithSize(rows, None)|
      && trusted == |rows| - |WithSize(rows, None)|
      && forall n: nat :: (if n in bySize then bySize[n] else 0) == |WithSize(rows, Some(n))|
    }

    constructor ()
      ensures Valid() && rows == {}
    {
      untrusted, bySize, trusted, rows := 0, map[], 0, {};
    }

    method Add(size: Option<nat>, ghost r: Row)
      requires Valid() && r !in rows && size == TrustedSize(r)
      modifies this
      ensures Valid() && rows == old(rows) + {r}
    {
      WithSizeAdd(rows, r);
      match size {
        case Some(n) =>
          bySize := bySize[n := (if n in bySize then bySize[n] else 0) + 1];
          trusted := trusted + 1;
        case None =>
          untrusted := untrusted + 1;
      }
      rows := rows + {r};
    }

    // The buckets answer what a direct count over the rows would.
    method CouldMatch(length: Option<nat>) returns (n: nat)
      requires Valid()
      ensures n == |Matching(rows, length)|
    {
      MatchingCount(rows, length);
      match length
      case Some(len) => n := untrusted + (if len in bySize then bySize[len] else 0);
      case None => n := untrusted + trusted;
    }
  }

  lemma WithSizeAdd(rows: set<Row>, r: Row)
    requires r !in rows
    ensures forall size :: |WithSize(rows + {r}, size)| == |WithSize(rows, size)| + (if TrustedSize(r) == size then 1 else 0)
  {
    forall size ensures |WithSize(rows + {r}, size)| == |WithSize(rows, size)| + (if TrustedSize(r) == size then 1 else 0) {
      assert WithSize(rows + {r}, size) == WithSize(rows, size) + (if TrustedSize(r) == size then {r} else {});
    }
  }

  lemma MatchingCount(rows: set<Row>, length: Option<nat>)
    ensures |Matching(rows, length)| == (if length.Some? then |WithSize(rows, None)| + |WithSize(rows, length)| else |rows|)
  {
    if length.Some? {
      assert Matching(rows, length) == WithSize(rows, None) + WithSize(rows, length);
      assert WithSize(rows, None) !! WithSize(rows, length);
    } else {
      assert Matching(rows, length) == rows;
    }
  }

  // ----- the ledger: what has been listed for the rows handled so far

  datatype Building = Building(copies: map<int, seq<RowRef>>, aliases: seq<RowRef>, sizes: set<nat>)

  datatype Ledger = Ledger(groups: map<nat, Building>, unknownContent: seq<UnknownContent>, exclusions: seq<Exclusion>)

  ghost predicate BuildingOk(b: Building, items: Items, h: nat) {
    && (forall id :: id in b.copies <==> RefsIn(items, Copy(h), id) != {})
    && (forall id :: id in b.copies ==> Collects(b.copies[id], RefsIn(items, Copy(h), id)))
    && Collects(b.aliases, Refs(items, Alias(h)))
    && b.sizes == SizesOf(items, h)
  }

  ghost predicate LedgerOk(l: Ledger, items: Items) {
    && l.groups.Keys == HashesOf(items)
    && (forall h :: h in l.groups ==> BuildingOk(l.groups[h], items, h))
    && Collects(l.unknownContent, UnknownsOf(items))
    && Collects(l.exclusions, ExclusionsOf(items))
  }

  // No other item has this one's source and file id.
  ghost predicate Fresh(items: Items, c: Catalog, r: Row) {
    forall i :: i in items ==> i.0.info.id != c.info.id || i.1.fileId != r.fileId
  }

  lemma RefsAdd(items: Items, c: Catalog, r: Row, fate: Fate, id: int)
    requires Fresh(items, c, r)
    ensures var more, hit := items + {(c, r)}, FateOf(c.rows, r) == fate;
            && Refs(more, fate) == Refs(items, fate) + (if hit then {RefOf(c, r)} else {})
            && RefsIn(more, fate, id) == RefsIn(items, fate, id) + (if hit && c.info.id == id then {RefOf(c, r)} else {})
    ensures RefOf(c, r) !in Refs(items, fate) && RefOf(c, r) !in RefsIn(items, fate, id)
  {
  }

  lemma SizesAdd(items: Items, c: Catalog, r: Row, h: nat)
    ensures SizesOf(items + {(c, r)}, h) == SizesOf(items, h)
              + (if FateOf(c.rows, r) == Copy(h) && TrustedSize(r).Some? then {TrustedSize(r).value} else {})
  {
    var more := items + {(c, r)};
    assert (c, r) in more;
    assert forall i :: i in more ==> i in items || i == (c, r);
  }

  lemma HashesAdd(items: Items, c: Catalog, r: Row)
    ensures HashesOf(items + {(c, r)}) == HashesOf(items)
              + (if FateOf(c.rows, r).Copy? then {FateOf(c.rows, r).hash} else {})
  {
    var more := items + {(c, r)};
    if FateOf(c.rows, r).Copy? { assert (c, r) in more; }
  }

  lemma UnknownsAdd(items: Items, c: Catalog, r: Row)
    requires Fresh(items, c, r)
    ensures var u := UnknownContent(RefOf(c, r), r.size, if FateOf(c.rows, r).Unexplained? then FateOf(c.rows, r).reason else NotHashed);
            && UnknownsOf(items + {(c, r)}) == UnknownsOf(items) + (if FateOf(c.rows, r).Unexplained? then {u} else {})
            && u !in UnknownsOf(items)
  {
    var more := items + {(c, r)};
    assert (c, r) in more;
  }

  lemma ExclusionsAdd(items: Items, c: Catalog, r: Row)
    requires Fresh(items, c, r)
    ensures var e := Exclusion(RefOf(c, r), if FateOf(c.rows, r).Excluded? then FateOf(c.rows, r).why else ShadowedRow);
            && ExclusionsOf(items + {(c, r)}) == ExclusionsOf(items) + (if FateOf(c.rows, r).Excluded? then {e} else {})
            && e !in ExclusionsOf(items)
  {
    var more := items + {(c, r)};
    assert (c, r) in more;
  }

  lemma CollectsMore<T(!new)>(s: seq<T>, elements: set<T>, x: T)
    requires Collects(s, elements) && x !in elements
    ensures Collects(s + [x], elements + {x})
  {
  }

  const EMPTY_BUILDING := Building(map[], [], {})

  function Get<K, V>(m: map<K, V>, k: K, default: V): V {
    if k in m then m[k] else default
  }

  function WithCopy(b: Building, ref: RowRef, size: Option<nat>): Building {
    b.(copies := b.copies[ref.sourceId := Get(b.copies, ref.sourceId, []) + [ref]],
       sizes := b.sizes + (if size.Some? then {size.value} else {}))
  }

  function PostCopy(l: Ledger, ref: RowRef, h: nat, size: Option<nat>): Ledger {
    l.(groups := l.groups[h := WithCopy(Get(l.groups, h, EMPTY_BUILDING), ref, size)])
  }

  function PostAlias(l: Ledger, ref: RowRef, h: nat): Ledger
    requires h in l.groups
  {
    l.(groups := l.groups[h := l.groups[h].(aliases := l.groups[h].aliases + [ref])])
  }

  function PostUnknown(l: Ledger, u: UnknownContent): Ledger {
    l.(unknownContent := l.unknownContent + [u])
  }

  function PostExcluded(l: Ledger, e: Exclusion): Ledger {
    l.(exclusions := l.exclusions + [e])
  }

  lemma NoCopiesYet(items: Items, h: nat)
    requires h !in HashesOf(items) && NoStrayAliases(items)
    ensures BuildingOk(EMPTY_BUILDING, items, h)
  {
    forall i | i in items ensures FateOf(i.0.rows, i.1) != Copy(h) && FateOf(i.0.rows, i.1) != Alias(h) {
      assert FateOf(i.0.rows, i.1).Copy? ==> FateOf(i.0.rows, i.1).hash in HashesOf(items);
    }
    forall id ensures RefsIn(items, Copy(h), id) == {} {
    }
    assert Refs(items, Alias(h)) == {} && SizesOf(items, h) == {};
  }

  // Hardlinks are handled after the copies of their source.
  ghost predicate NoStrayAliases(items: Items) {
    forall i :: i in items && FateOf(i.0.rows, i.1).Alias? ==> FateOf(i.0.rows, i.1).hash in HashesOf(items)
  }

  // A building whose hash is not the item's is untouched by it.
  lemma OtherBuilding(b: Building, items: Items, c: Catalog, r: Row, h: nat)
    requires Fresh(items, c, r) && BuildingOk(b, items, h)
    requires FateOf(c.rows, r) != Copy(h) && FateOf(c.rows, r) != Alias(h)
    ensures BuildingOk(b, items + {(c, r)}, h)
  {
    hide Refs, RefsIn, SizesOf, FateOf;
    SizesAdd(items, c, r, h);
    forall id ensures RefsIn(items + {(c, r)}, Copy(h), id) == RefsIn(items, Copy(h), id) {
      RefsAdd(items, c, r, Copy(h), id);
    }
    RefsAdd(items, c, r, Alias(h), 0);
  }

  lemma CopyBuilding(b: Building, items: Items, c: Catalog, r: Row, h: nat)
    requires Fresh(items, c, r) && BuildingOk(b, items, h) && FateOf(c.rows, r) == Copy(h)
    ensures BuildingOk(WithCopy(b, RefOf(c, r), TrustedSize(r)), items + {(c, r)}, h)
  {
    hide Refs, RefsIn, SizesOf, FateOf;
    var b' := WithCopy(b, RefOf(c, r), TrustedSize(r));
    SizesAdd(items, c, r, h);
    RefsAdd(items, c, r, Alias(h), 0);
    forall id
      ensures id in b'.copies <==> RefsIn(items + {(c, r)}, Copy(h), id) != {}
      ensures id in b'.copies ==> Collects(b'.copies[id], RefsIn(items + {(c, r)}, Copy(h), id))
    {
      RefsAdd(items, c, r, Copy(h), id);
      if id == c.info.id {
        if id !in b.copies { CollectsNone<RowRef>(); }
        CollectsMore(Get(b.copies, id, []), RefsIn(items, Copy(h), id), RefOf(c, r));
      }
    }
  }

  lemma CollectsNone<T(!new)>()
    ensures Collects<T>([], {})
  {
  }

  lemma AliasBuilding(b: Building, items: Items, c: Catalog, r: Row, h: nat)
    requires Fresh(items, c, r) && BuildingOk(b, items, h) && FateOf(c.rows, r) == Alias(h)
    ensures BuildingOk(b.(aliases := b.aliases + [RefOf(c, r)]), items + {(c, r)}, h)
  {
    hide Refs, RefsIn, SizesOf, FateOf;
    SizesAdd(items, c, r, h);
    forall id ensures RefsIn(items + {(c, r)}, Copy(h), id) == RefsIn(items, Copy(h), id) {
      RefsAdd(items, c, r, Copy(h), id);
    }
    RefsAdd(items, c, r, Alias(h), 0);
    CollectsMore(b.aliases, Refs(items, Alias(h)), RefOf(c, r));
  }

  // Each row is posted according to its fate.
  lemma PostCopyOk(l: Ledger, items: Items, c: Catalog, r: Row, h: nat)
    requires LedgerOk(l, items) && NoStrayAliases(items) && Fresh(items, c, r) && FateOf(c.rows, r) == Copy(h)
    ensures LedgerOk(PostCopy(l, RefOf(c, r), h, TrustedSize(r)), items + {(c, r)})
    ensures NoStrayAliases(items + {(c, r)})
  {
    hide BuildingOk, HashesOf, UnknownsOf, ExclusionsOf, FateOf;
    var l' := PostCopy(l, RefOf(c, r), h, TrustedSize(r));
    HashesAdd(items, c, r);
    UnknownsAdd(items, c, r);
    ExclusionsAdd(items, c, r);
    if h !in l.groups { NoCopiesYet(items, h); }
    forall g | g in l'.groups ensures BuildingOk(l'.groups[g], items + {(c, r)}, g) {
      if g == h {
        CopyBuilding(Get(l.groups, h, EMPTY_BUILDING), items, c, r, h);
      } else {
        OtherBuilding(l.groups[g], items, c, r, g);
      }
    }
  }

  lemma PostAliasOk(l: Ledger, items: Items, c: Catalog, r: Row, h: nat)
    requires LedgerOk(l, items) && NoStrayAliases(items) && Fresh(items, c, r) && FateOf(c.rows, r) == Alias(h)
    requires h in l.groups
    ensures LedgerOk(PostAlias(l, RefOf(c, r), h), items + {(c, r)})
    ensures NoStrayAliases(items + {(c, r)})
  {
    hide BuildingOk, HashesOf, UnknownsOf, ExclusionsOf, FateOf;
    var l' := PostAlias(l, RefOf(c, r), h);
    HashesAdd(items, c, r);
    UnknownsAdd(items, c, r);
    ExclusionsAdd(items, c, r);
    forall g | g in l'.groups ensures BuildingOk(l'.groups[g], items + {(c, r)}, g) {
      if g == h {
        AliasBuilding(l.groups[h], items, c, r, h);
      } else {
        OtherBuilding(l.groups[g], items, c, r, g);
      }
    }
  }

  lemma OtherBuildings(l: Ledger, items: Items, c: Catalog, r: Row)
    requires LedgerOk(l, items) && NoStrayAliases(items) && Fresh(items, c, r)
    requires FateOf(c.rows, r).Unexplained? || FateOf(c.rows, r).Excluded?
    ensures l.groups.Keys == HashesOf(items + {(c, r)}) && NoStrayAliases(items + {(c, r)})
    ensures forall h :: h in l.groups ==> BuildingOk(l.groups[h], items + {(c, r)}, h)
  {
    hide BuildingOk, HashesOf, UnknownsOf, ExclusionsOf, FateOf;
    HashesAdd(items, c, r);
    forall g | g in l.groups ensures BuildingOk(l.groups[g], items + {(c, r)}, g) {
      OtherBuilding(l.groups[g], items, c, r, g);
    }
  }

  lemma PostUnknownOk(l: Ledger, items: Items, c: Catalog, r: Row)
    requires LedgerOk(l, items) && NoStrayAliases(items) && Fresh(items, c, r) && FateOf(c.rows, r).Unexplained?
    ensures LedgerOk(PostUnknown(l, UnknownContent(RefOf(c, r), r.size, FateOf(c.rows, r).reason)), items + {(c, r)})
    ensures NoStrayAliases(items + {(c, r)})
  {
    hide BuildingOk, HashesOf, UnknownsOf, ExclusionsOf, FateOf;
    OtherBuildings(l, items, c, r);
    UnknownsAdd(items, c, r);
    ExclusionsAdd(items, c, r);
    CollectsMore(l.unknownContent, UnknownsOf(items), UnknownContent(RefOf(c, r), r.size, FateOf(c.rows, r).reason));
  }

  lemma PostExcludedOk(l: Ledger, items: Items, c: Catalog, r: Row)
    requires LedgerOk(l, items) && NoStrayAliases(items) && Fresh(items, c, r) && FateOf(c.rows, r).Excluded?
    ensures LedgerOk(PostExcluded(l, Exclusion(RefOf(c, r), FateOf(c.rows, r).why)), items + {(c, r)})
    ensures NoStrayAliases(items + {(c, r)})
  {
    hide BuildingOk, HashesOf, UnknownsOf, ExclusionsOf, FateOf;
    OtherBuildings(l, items, c, r);
    UnknownsAdd(items, c, r);
    ExclusionsAdd(items, c, r);
    CollectsMore(l.exclusions, ExclusionsOf(items), Exclusion(RefOf(c, r), FateOf(c.rows, r).why));
  }

  // ----- the grouping loop

  predicate Unusable(s: Source) {
    || (s.evidence == Unavailable && |s.rows| > 0)
    || (s.evidence == NoContentHashes && exists r :: r in s.rows && r.hash.Some?)
  }

  ghost predicate RepeatsFileId(rows: seq<Row>) {
    exists i, j :: 0 <= i < j < |rows| && rows[i].fileId == rows[j].fileId
  }

  ghost predicate RepeatsSourceId(sources: seq<Source>) {
    exists i, j :: 0 <= i < j < |sources| && sources[i].id == sources[j].id
  }

  ghost predicate Rejected(sources: seq<Source>) {
    RepeatsSourceId(sources) || exists s :: s in sources && (Unusable(s) || RepeatsFileId(s.rows))
  }

  function SourceKey(s: Source): Key { Key(0, s.id, [], 0, 0) }

  // Winners of the exact paths; None when a file id repeats.
  method LatestIds(rows: seq<Row>) returns (latest: Option<map<seq<byte>, int>>)
    ensures latest.None? <==> RepeatsFileId(rows)
    ensures latest.Some? ==> forall r :: r in rows && !r.lossyName ==>
              r.path in latest.value && (latest.value[r.path] != r.fileId <==> Shadowed(RowSet(rows), r))
  {
    hide WinnersOk, IdsSeen, RepeatsFileId, Shadowed;
    var seen: set<int> := {};
    var winners: map<seq<byte>, int> := map[];
    NothingSeen();
    for k := 0 to |rows|
      invariant IdsSeen(seen, rows[..k]) && WinnersOk(winners, rows[..k])
    {
      var r := rows[k];
      assert rows[..k + 1] == rows[..k] + [r];
      IdsSnoc(seen, rows[..k], r);
      if r.fileId in seen {
        RepeatsInPrefix(rows, k + 1);
        return None;
      }
      seen := seen + {r.fileId};
      WinnersSnoc(winners, rows[..k], r);
      if !r.lossyName {
        var best := Get(winners, r.path, r.fileId);
        winners := winners[r.path := if best >= r.fileId then best else r.fileId];
      }
    }
    assert rows[..|rows|] == rows;
    WinnersShadow(winners, rows);
    SeenDistinct(seen, rows);
    latest := Some(winners);
  }

  ghost predicate IdsSeen(seen: set<int>, rows: seq<Row>) {
    !RepeatsFileId(rows) && forall id :: id in seen <==> exists r :: r in rows && r.fileId == id
  }

  lemma NothingSeen()
    ensures IdsSeen({}, []) && WinnersOk(map[], [])
  {
  }

  lemma SeenDistinct(seen: set<int>, rows: seq<Row>)
    requires IdsSeen(seen, rows)
    ensures !RepeatsFileId(rows)
  {
  }

  lemma IdsSnoc(seen: set<int>, rows: seq<Row>, r: Row)
    requires IdsSeen(seen, rows)
    ensures r.fileId in seen ==> RepeatsFileId(rows + [r])
    ensures r.fileId !in seen ==> IdsSeen(seen + {r.fileId}, rows + [r])
  {
    var more := rows + [r];
    if r.fileId in seen {
      var x :| x in rows && x.fileId == r.fileId;
      var i :| 0 <= i < |rows| && rows[i] == x;
      assert more[i].fileId == more[|rows|].fileId;
    } else {
      forall i, j | 0 <= i < j < |more| ensures more[i].fileId != more[j].fileId {
        assert more[i] in rows;
      }
      assert forall x :: x in more <==> x in rows || x == r;
    }
  }

  lemma RepeatsInPrefix(rows: seq<Row>, k: nat)
    requires k <= |rows| && RepeatsFileId(rows[..k])
    ensures RepeatsFileId(rows)
  {
    var i, j :| 0 <= i < j < k && rows[..k][i].fileId == rows[..k][j].fileId;
    assert rows[i].fileId == rows[j].fileId;
  }

  // The greatest file id of each exact path.
  ghost predicate WinnersOk(winners: map<seq<byte>, int>, rows: seq<Row>) {
    && (forall p :: p in winners ==> exists w :: w in rows && !w.lossyName && w.path == p && w.fileId == winners[p])
    && (forall r :: r in rows && !r.lossyName ==> r.path in winners && r.fileId <= winners[r.path])
  }

  lemma WinnersSnoc(winners: map<seq<byte>, int>, rows: seq<Row>, r: Row)
    requires WinnersOk(winners, rows)
    ensures r.lossyName ==> WinnersOk(winners, rows + [r])
    ensures !r.lossyName ==>
              var best := Get(winners, r.path, r.fileId);
              WinnersOk(winners[r.path := if best >= r.fileId then best else r.fileId], rows + [r])
  {
    assert r in rows + [r];
    assert forall x :: x in rows ==> x in rows + [r];
  }

  lemma WinnersShadow(winners: map<seq<byte>, int>, rows: seq<Row>)
    requires WinnersOk(winners, rows)
    ensures forall r :: r in rows && !r.lossyName ==>
              r.path in winners && (winners[r.path] != r.fileId <==> Shadowed(RowSet(rows), r))
  {
    forall r | r in rows && !r.lossyName
      ensures r.path in winners && (winners[r.path] != r.fileId <==> Shadowed(RowSet(rows), r))
    {
      var w :| w in rows && !w.lossyName && w.path == r.path && w.fileId == winners[r.path];
      assert w in RowSet(rows);
    }
  }

  // Items of the rows of one source among the first k, without the effective hardlinks.
  ghost predicate Deferred(c: Catalog, r: Row) {
    !Shadowed(c.rows, r) && r.entry == Hardlink
  }

  ghost function ItemsBefore(base: Items, c: Catalog, rows: seq<Row>, k: nat): Items
    requires k <= |rows|
  {
    base + set r | r in rows[..k] && !Deferred(c, r) :: (c, r)
  }

  ghost function LinksBefore(base: Items, c: Catalog, links: seq<Row>, k: nat): Items
    requires k <= |links|
  {
    base + set r | r in links[..k] :: (c, r)
  }

  ghost predicate NoneOf(items: Items, id: int) {
    forall i :: i in items ==> i.0.info.id != id
  }

  // The files, symlinks and shadowed rows of one source; its hardlinks are kept for later.
  method PostRows(s: Source, latest: map<seq<byte>, int>, l0: Ledger, ghost base: Items)
    returns (l: Ledger, links: seq<Row>, unknown: UnknownRows)
    requires !RepeatsFileId(s.rows)
    requires forall r :: r in s.rows && !r.lossyName ==>
               r.path in latest && (latest[r.path] != r.fileId <==> Shadowed(CatalogOf(s).rows, r))
    requires LedgerOk(l0, base) && NoStrayAliases(base) && NoneOf(base, s.id)
    ensures fresh(unknown) && unknown.Valid()
    ensures unknown.rows == UnexplainedIn(CatalogOf(s), s.rows)
    ensures LedgerOk(l, ItemsBefore(base, CatalogOf(s), s.rows, |s.rows|))
    ensures NoStrayAliases(ItemsBefore(base, CatalogOf(s), s.rows, |s.rows|))
    ensures LinksOk(links, CatalogOf(s), s.rows)
  {
    hide LedgerOk, NoStrayAliases, ItemsBefore, FateOf, Shadowed, Fresh, LinksOk, UnexplainedIn, NoneOf, RepeatsFileId, UnknownRows.Valid;
    ghost var c := CatalogOf(s);
    l, links := l0, [];
    unknown := new UnknownRows();
    NoRowsYet(base, c, s.rows);
    for k := 0 to |s.rows|
      invariant fresh(unknown) && unknown.Valid() && unknown.rows == UnexplainedIn(c, s.rows[..k])
      invariant LedgerOk(l, ItemsBefore(base, c, s.rows, k)) && NoStrayAliases(ItemsBefore(base, c, s.rows, k))
      invariant LinksOk(links, c, s.rows[..k])
    {
      var r := s.rows[k];
      NextRow(base, c, s.rows, k, links);
      var shadowed := !r.lossyName && latest[r.path] != r.fileId;
      if !shadowed && r.entry == Hardlink {
        links := links + [r];
      } else {
        var isUnknown;
        l, isUnknown := PostRow(RowRef(s.id, r.path, r.fileId), r, shadowed, l, ItemsBefore(base, c, s.rows, k), c);
        if isUnknown { unknown.Add(TrustedSize(r), r); }
      }
    }
    assert s.rows[..|s.rows|] == s.rows;
  }

  ghost predicate LinksOk(links: seq<Row>, c: Catalog, rows: seq<Row>) {
    Distinct(links) && forall r :: r in links <==> r in rows && Deferred(c, r)
  }

  ghost function UnexplainedIn(c: Catalog, rows: seq<Row>): set<Row> {
    set r | r in rows && FateOf(c.rows, r).Unexplained?
  }

  method PostRow(ref: RowRef, r: Row, shadowed: bool, l0: Ledger, ghost items: Items, ghost c: Catalog)
    returns (l: Ledger, isUnknown: bool)
    requires ref == RefOf(c, r) && shadowed == Shadowed(c.rows, r) && !Deferred(c, r)
    requires LedgerOk(l0, items) && NoStrayAliases(items) && Fresh(items, c, r)
    ensures LedgerOk(l, items + {(c, r)}) && NoStrayAliases(items + {(c, r)})
    ensures isUnknown <==> FateOf(c.rows, r).Unexplained?
  {
    hide LedgerOk, NoStrayAliases, Shadowed, Fresh;
    isUnknown := false;
    if shadowed {
      PostExcludedOk(l0, items, c, r);
      l := PostExcluded(l0, Exclusion(ref, ShadowedRow));
    } else if r.entry == Symlink {
      PostExcludedOk(l0, items, c, r);
      l := PostExcluded(l0, Exclusion(ref, SymlinkRow));
    } else if r.hash.Some? && !UntrustedHash(r) && !r.lossyName {
      PostCopyOk(l0, items, c, r, r.hash.value);
      l := PostCopy(l0, ref, r.hash.value, TrustedSize(r));
    } else {
      PostUnknownOk(l0, items, c, r);
      l := PostUnknown(l0, UnknownContent(ref, r.size, WhyUnknown(r)));
      isUnknown := true;
    }
  }

  lemma NoRowsYet(base: Items, c: Catalog, rows: seq<Row>)
    ensures ItemsBefore(base, c, rows, 0) == base && LinksOk([], c, rows[..0]) && UnexplainedIn(c, rows[..0]) == {}
  {
  }

  lemma NextRow(base: Items, c: Catalog, rows: seq<Row>, k: nat, links: seq<Row>)
    requires k < |rows| && !RepeatsFileId(rows) && NoneOf(base, c.info.id) && c.rows == RowSet(rows)
    requires LinksOk(links, c, rows[..k])
    ensures var r := rows[k];
            && Fresh(ItemsBefore(base, c, rows, k), c, r) && r in rows
            && r !in UnexplainedIn(c, rows[..k])
            && UnexplainedIn(c, rows[..k + 1]) == UnexplainedIn(c, rows[..k]) + (if FateOf(c.rows, r).Unexplained? then {r} else {})
            && ItemsBefore(base, c, rows, k + 1) == ItemsBefore(base, c, rows, k) + (if Deferred(c, r) then {} else {(c, r)})
            && LinksOk(if Deferred(c, r) then links + [r] else links, c, rows[..k + 1])
            && (r.lossyName ==> !Shadowed(c.rows, r))
            && (Deferred(c, r) ==> !FateOf(c.rows, r).Unexplained?)
  {
    var r := rows[k];
    assert rows[..k + 1] == rows[..k] + [r];
    forall x | x in rows[..k] ensures x.fileId != r.fileId {
      var j :| 0 <= j < k && rows[j] == x;
    }
    assert r !in links;
  }

  // After the source's files, so every same-source copy is known.
  method PostLinks(s: Source, links: seq<Row>, l0: Ledger, ghost base: Items) returns (l: Ledger)
    requires LinksOk(links, CatalogOf(s), s.rows) && !RepeatsFileId(s.rows) && NoneOf(base, s.id)
    requires LedgerOk(l0, ItemsBefore(base, CatalogOf(s), s.rows, |s.rows|))
    requires NoStrayAliases(ItemsBefore(base, CatalogOf(s), s.rows, |s.rows|))
    ensures LedgerOk(l, base + AllItems({CatalogOf(s)})) && NoStrayAliases(base + AllItems({CatalogOf(s)}))
  {
    hide LedgerOk, NoStrayAliases, ItemsBefore, FateOf, Shadowed, Fresh, LinksOk, NoneOf, RepeatsFileId;
    ghost var c := CatalogOf(s);
    ghost var files := ItemsBefore(base, c, s.rows, |s.rows|);
    l := l0;
    ghost var items := files;
    for k := 0 to |links|
      invariant items == LinksBefore(files, c, links, k)
      invariant LedgerOk(l, items) && NoStrayAliases(items)
    {
      var r := links[k];
      var ref := RowRef(s.id, r.path, r.fileId);
      NextLink(base, s, links, k, l);
      if r.hash.Some? && r.hash.value in l.groups && s.id in l.groups[r.hash.value].copies {
        PostAliasOk(l, items, c, r, r.hash.value);
        l := PostAlias(l, ref, r.hash.value);
      } else {
        PostExcludedOk(l, items, c, r);
        l := PostExcluded(l, Exclusion(ref, UnmatchedHardlink));
      }
      items := items + {(c, r)};
    }
    AllPosted(base, s, links);
  }

  lemma NextLink(base: Items, s: Source, links: seq<Row>, k: nat, l: Ledger)
    requires k < |links| && LinksOk(links, CatalogOf(s), s.rows) && !RepeatsFileId(s.rows) && NoneOf(base, s.id)
    requires LedgerOk(l, LinksBefore(ItemsBefore(base, CatalogOf(s), s.rows, |s.rows|), CatalogOf(s), links, k))
    ensures var c, r := CatalogOf(s), links[k];
            var files := ItemsBefore(base, c, s.rows, |s.rows|);
            var items := LinksBefore(files, c, links, k);
            && Fresh(items, c, r)
            && LinksBefore(files, c, links, k + 1) == items + {(c, r)}
            && FateOf(c.rows, r) == (if r.hash.Some? && r.hash.value in l.groups && s.id in l.groups[r.hash.value].copies
                                     then Alias(r.hash.value) else Excluded(UnmatchedHardlink))
  {
    var c, r := CatalogOf(s), links[k];
    var files := ItemsBefore(base, c, s.rows, |s.rows|);
    var items := LinksBefore(files, c, links, k);
    assert r in links && s.rows[..|s.rows|] == s.rows;
    assert links[..k + 1] == links[..k] + [r];
    assert r !in links[..k];
    forall x | x in s.rows && x.fileId == r.fileId ensures x == r {
      var i :| 0 <= i < |s.rows| && s.rows[i] == x;
      var j :| 0 <= j < |s.rows| && s.rows[j] == r;
    }
    forall i | i in items ensures i.0.info.id != c.info.id || i.1.fileId != r.fileId {
      if i in base { assert i.0.info.id != s.id; }
      else if i.1 in links[..k] && i == (c, i.1) { assert i.1 in links; }
      else { assert i.1 in s.rows && !Deferred(c, i.1); }
    }
    if r.hash.Some? { CopyIsPosted(base, s, links, k, r.hash.value, l); }
  }

  lemma CopyIsPosted(base: Items, s: Source, links: seq<Row>, k: nat, h: nat, l: Ledger)
    requires k <= |links| && LinksOk(links, CatalogOf(s), s.rows) && NoneOf(base, s.id)
    requires LedgerOk(l, LinksBefore(ItemsBefore(base, CatalogOf(s), s.rows, |s.rows|), CatalogOf(s), links, k))
    ensures (h in l.groups && s.id in l.groups[h].copies) <==> exists x :: x in CatalogOf(s).rows && IsCopy(CatalogOf(s).rows, x, h)
  {
    var c := CatalogOf(s);
    var items := LinksBefore(ItemsBefore(base, c, s.rows, |s.rows|), c, links, k);
    HoldsFiles(base, s, links, k);
    CopyRefs(items, c, h);
    BuildingHasCopies(l, items, h, s.id);
  }

  // The items of one source among `items`: only its rows, and all its files.
  ghost predicate HasFilesOf(items: Items, c: Catalog) {
    && (forall i :: i in items && i.0.info.id == c.info.id ==> i.0 == c && i.1 in c.rows)
    && (forall x :: x in c.rows && x.entry == File ==> (c, x) in items)
  }

  lemma HoldsFiles(base: Items, s: Source, links: seq<Row>, k: nat)
    requires k <= |links| && LinksOk(links, CatalogOf(s), s.rows) && NoneOf(base, s.id)
    ensures HasFilesOf(LinksBefore(ItemsBefore(base, CatalogOf(s), s.rows, |s.rows|), CatalogOf(s), links, k), CatalogOf(s))
  {
    assert s.rows[..|s.rows|] == s.rows;
  }

  lemma CopyRefs(items: Items, c: Catalog, h: nat)
    requires HasFilesOf(items, c)
    ensures RefsIn(items, Copy(h), c.info.id) != {} <==> exists x :: x in c.rows && IsCopy(c.rows, x, h)
  {
    if RefsIn(items, Copy(h), c.info.id) != {} {
      var ref :| ref in RefsIn(items, Copy(h), c.info.id);
      var i :| i in items && i.0.info.id == c.info.id && FateOf(i.0.rows, i.1) == Copy(h);
      assert i.1 in c.rows && IsCopy(c.rows, i.1, h);
    }
    if x :| x in c.rows && IsCopy(c.rows, x, h) {
      assert FateOf(c.rows, x) == Copy(h) && (c, x) in items;
      assert RefOf(c, x) in RefsIn(items, Copy(h), c.info.id);
    }
  }

  lemma BuildingHasCopies(l: Ledger, items: Items, h: nat, id: int)
    requires LedgerOk(l, items)
    ensures (h in l.groups && id in l.groups[h].copies) <==> RefsIn(items, Copy(h), id) != {}
  {
    if RefsIn(items, Copy(h), id) != {} {
      var ref :| ref in RefsIn(items, Copy(h), id);
      var i :| i in items && i.0.info.id == id && FateOf(i.0.rows, i.1) == Copy(h);
      assert h in HashesOf(items);
      assert BuildingOk(l.groups[h], items, h);
    }
    if h in l.groups { assert BuildingOk(l.groups[h], items, h); }
  }

  lemma AllPosted(base: Items, s: Source, links: seq<Row>)
    requires LinksOk(links, CatalogOf(s), s.rows)
    ensures LinksBefore(ItemsBefore(base, CatalogOf(s), s.rows, |s.rows|), CatalogOf(s), links, |links|)
         == base + AllItems({CatalogOf(s)})
  {
    var c := CatalogOf(s);
    assert s.rows[..|s.rows|] == s.rows && links[..|links|] == links;
    assert forall r :: r in c.rows <==> r in s.rows;
  }

  // ----- presence from the ledger

  function PresenceIn(evidence: Evidence, copies: Option<nat>, suspects: nat): Presence {
    if evidence == Unreachable then Unknown(SourceUnreachable)
    else if copies.Some? then Present(copies.value)
    else match evidence
      case Unavailable => Unknown(SourceUnavailable)
      case Unreachable => Unknown(SourceUnreachable)
      case Incomplete => Unknown(SourceIncomplete)
      case NoContentHashes => Unknown(SourceHasNoContentHashes)
      case Complete => if suspects == 0 then Absent else Unknown(UnhashedRowsMayMatch(suspects))
  }

  ghost predicate Catalogued(ordered: seq<Source>, cs: set<Catalog>) {
    && (forall c :: c in cs <==> exists s :: s in ordered && CatalogOf(s) == c)
    && (forall i, j :: 0 <= i < j < |ordered| ==> ordered[i].id < ordered[j].id)
    && (forall s :: s in ordered ==> !RepeatsFileId(s.rows))
  }

  // Copies listed for a source are as many as its copy rows.
  lemma CopyCount(b: Building, cs: set<Catalog>, h: nat, s: Source)
    requires BuildingOk(b, AllItems(cs), h) && CatalogOf(s) in cs && IdsDistinct(cs) && !RepeatsFileId(s.rows)
    ensures s.id in b.copies <==> |CopiesIn(CatalogOf(s), h)| > 0
    ensures s.id in b.copies ==> |b.copies[s.id]| == |CopiesIn(CatalogOf(s), h)|
  {
    var c := CatalogOf(s);
    var items := AllItems(cs);
    var refs := RefsIn(items, Copy(h), s.id);
    var rows := CopiesIn(c, h);
    assert refs == set r | r in rows :: RefOf(c, r) by {
      assert forall i :: i in items && i.0.info.id == s.id ==> i.0 == c;
      forall r | r in rows ensures RefOf(c, r) in refs { assert (c, r) in items; }
    }
    forall r, r' | r in rows && r' in rows && RefOf(c, r) == RefOf(c, r') ensures r == r' {
      var i :| 0 <= i < |s.rows| && s.rows[i] == r;
      var j :| 0 <= j < |s.rows| && s.rows[j] == r';
    }
    ImageSize(rows, (r: Row) => RefOf(c, r), refs);
    if s.id in b.copies { CollectedSize(b.copies[s.id], refs); }
  }

  lemma SuspectsAreMatching(s: Source, rows: set<Row>, size: Option<nat>)
    requires rows == UnexplainedIn(CatalogOf(s), s.rows)
    ensures Matching(rows, size) == Suspects(CatalogOf(s), size)
  {
  }

  ghost predicate Identified(cs: set<Catalog>) {
    IdsDistinct(cs) && forall c, r, r' :: c in cs && r in c.rows && r' in c.rows && r.fileId == r'.fileId ==> r == r'
  }

  lemma KeysInjective(cs: set<Catalog>)
    requires Identified(cs)
    ensures KeyInjective(UnknownsOf(AllItems(cs)), UnknownKey)
    ensures KeyInjective(ExclusionsOf(AllItems(cs)), ExclusionKey)
  {
  }

  // Copies are kept per source id, in id order.
  method FlattenCopies(b: Building, h: nat, ordered: seq<Source>, ghost cs: set<Catalog>) returns (copies: seq<RowRef>)
    requires BuildingOk(b, AllItems(cs), h) && Catalogued(ordered, cs)
    ensures Collects(copies, Refs(AllItems(cs), Copy(h)))
  {
    hide FateOf, AllItems, RefsIn;
    ghost var items := AllItems(cs);
    copies := [];
    for k := 0 to |ordered|
      invariant Distinct(copies)
      invariant forall ref :: ref in copies <==> ref in Refs(items, Copy(h)) && FromFirst(ref, ordered, k)
    {
      var id := ordered[k].id;
      RefsBySource(items, h, id);
      if id in b.copies {
        DistinctConcat(copies, b.copies[id]);
        copies := copies + b.copies[id];
      }
    }
    AllFromSources(items, h, ordered, cs);
  }

  ghost predicate FromFirst(ref: RowRef, ordered: seq<Source>, k: nat)
    requires k <= |ordered|
  {
    exists j :: 0 <= j < k && ordered[j].id == ref.sourceId
  }

  lemma AllFromSources(items: Items, h: nat, ordered: seq<Source>, cs: set<Catalog>)
    requires items == AllItems(cs) && Catalogued(ordered, cs)
    ensures forall ref :: ref in Refs(items, Copy(h)) ==> FromFirst(ref, ordered, |ordered|)
  {
    forall ref | ref in Refs(items, Copy(h)) ensures FromFirst(ref, ordered, |ordered|) {
      var i :| i in items && FateOf(i.0.rows, i.1) == Copy(h) && RefOf(i.0, i.1) == ref;
      var s :| s in ordered && CatalogOf(s) == i.0;
      var j :| 0 <= j < |ordered| && ordered[j] == s;
    }
  }

  lemma RefsBySource(items: Items, h: nat, id: int)
    ensures forall ref :: ref in RefsIn(items, Copy(h), id) <==> ref in Refs(items, Copy(h)) && ref.sourceId == id
  {
    forall ref | ref in Refs(items, Copy(h)) && ref.sourceId == id ensures ref in RefsIn(items, Copy(h), id) {
      var i :| i in items && FateOf(i.0.rows, i.1) == Copy(h) && RefOf(i.0, i.1) == ref;
      assert i.0.info.id == id;
    }
  }

  function Infos(ordered: seq<Source>): seq<SourceInfo> {
    seq(|ordered|, k requires 0 <= k < |ordered| => SourceInfo(ordered[k].id, ordered[k].name, ordered[k].evidence))
  }

  ghost predicate Explains(unknowns: seq<UnknownRows>, ordered: seq<Source>)
    reads unknowns
  {
    |unknowns| == |ordered| &&
    forall k :: 0 <= k < |unknowns| ==> unknowns[k].Valid() && unknowns[k].rows == UnexplainedIn(CatalogOf(ordered[k]), ordered[k].rows)
  }

  method PresenceList(b: Building, h: nat, size: Option<nat>, ordered: seq<Source>, unknowns: seq<UnknownRows>, ghost cs: set<Catalog>)
    returns (ps: seq<SourcePresence>)
    requires BuildingOk(b, AllItems(cs), h) && Catalogued(ordered, cs) && IdsDistinct(cs) && Explains(unknowns, ordered)
    ensures IsPresenceList(ps, cs, Infos(ordered), h, size)
  {
    hide BuildingOk, Explains, Catalogued, IdsDistinct, PresenceOf, UnknownRows.Valid;
    ps := [];
    for k := 0 to |ordered|
      invariant |ps| == k
      invariant forall j :: 0 <= j < k ==> ps[j] == SourcePresence(ordered[j].id, PresenceOf(CatalogOf(ordered[j]), h, size))
    {
      var s := ordered[k];
      CataloguedAt(ordered, cs, unknowns, k);
      CopyCount(b, cs, h, s);
      SuspectsAreMatching(s, unknowns[k].rows, size);
      var suspects := unknowns[k].CouldMatch(size);
      var copies := if s.id in b.copies then Some(|b.copies[s.id]|) else None;
      PresenceAgrees(s, h, size, copies, suspects);
      ps := ps + [SourcePresence(s.id, PresenceIn(s.evidence, copies, suspects))];
    }
    InfoIdentifies(ordered, cs);
  }

  lemma CataloguedAt(ordered: seq<Source>, cs: set<Catalog>, unknowns: seq<UnknownRows>, k: nat)
    requires Catalogued(ordered, cs) && Explains(unknowns, ordered) && k < |ordered|
    ensures CatalogOf(ordered[k]) in cs && !RepeatsFileId(ordered[k].rows)
    ensures |unknowns| == |ordered| && unknowns[k].Valid() && unknowns[k].rows == UnexplainedIn(CatalogOf(ordered[k]), ordered[k].rows)
  {
    assert ordered[k] in ordered;
  }

  lemma PresenceAgrees(s: Source, h: nat, size: Option<nat>, copies: Option<nat>, suspects: nat)
    requires copies.Some? <==> |CopiesIn(CatalogOf(s), h)| > 0
    requires copies.Some? ==> copies.value == |CopiesIn(CatalogOf(s), h)|
    requires suspects == |Suspects(CatalogOf(s), size)|
    ensures PresenceIn(s.evidence, copies, suspects) == PresenceOf(CatalogOf(s), h, size)
  {
  }

  lemma InfoIdentifies(ordered: seq<Source>, cs: set<Catalog>)
    requires Catalogued(ordered, cs) && IdsDistinct(cs)
    ensures forall k, c :: 0 <= k < |ordered| && c in cs && c.info == Infos(ordered)[k] ==> c == CatalogOf(ordered[k])
  {
    forall k, c | 0 <= k < |ordered| && c in cs && c.info == Infos(ordered)[k] ensures c == CatalogOf(ordered[k]) {
      assert ordered[k] in ordered && CatalogOf(ordered[k]) in cs;
    }
  }

  method CountPresent(ps: seq<SourcePresence>) returns (n: nat)
    ensures n == PresentCount(ps)
  {
    n := 0;
    for k := 0 to |ps|
      invariant n == PresentCount(ps[..k])
    {
      assert ps[..k + 1][..k] == ps[..k];
      if ps[k].presence.Present? { n := n + 1; }
    }
    assert ps[..|ps|] == ps;
  }

  method BuildGroup(h: nat, b: Building, ordered: seq<Source>, unknowns: seq<UnknownRows>, ghost cs: set<Catalog>)
    returns (g: ContentGroup)
    requires BuildingOk(b, AllItems(cs), h) && Catalogued(ordered, cs) && IdsDistinct(cs) && Explains(unknowns, ordered)
    ensures g.hash == h && IsGroup(g, cs, Infos(ordered))
  {
    hide Catalogued, IdsDistinct, Explains, IsPresenceList, AllItems;
    var size := None;
    if |b.sizes| == 1 {
      var n :| n in b.sizes;
      size := Some(n);
      OnlySizeIs(b.sizes, n);
    }
    var ps := PresenceList(b, h, size, ordered, unknowns, cs);
    var present := CountPresent(ps);
    var copies := FlattenCopies(b, h, ordered, cs);
    RefKeyInjective(Refs(AllItems(cs), Copy(h)));
    RefKeyInjective(Refs(AllItems(cs), Alias(h)));
    SortedLists(copies, Refs(AllItems(cs), Copy(h)), RefKey);
    SortedLists(b.aliases, Refs(AllItems(cs), Alias(h)), RefKey);
    g := ContentGroup(h, size, if AnyUnknown(ps) then AtLeast(present) else Exact(present), ps,
                      SortBy(copies, RefKey), SortBy(b.aliases, RefKey));
  }

  lemma RefKeyInjective(refs: set<RowRef>)
    ensures KeyInjective(refs, RefKey)
  {
  }

  lemma OnlySizeIs(sizes: set<nat>, n: nat)
    requires |sizes| == 1 && n in sizes
    ensures OnlySize(sizes) == Some(n)
  {
    assert |sizes - {n}| == 0;
    assert forall m :: m in sizes ==> m == n || m in sizes - {n};
  }

  method BuildGroups(groups: map<nat, Building>, ordered: seq<Source>, unknowns: seq<UnknownRows>, ghost cs: set<Catalog>)
    returns (r: seq<ContentGroup>)
    requires groups.Keys == HashesOf(AllItems(cs))
    requires forall h :: h in groups ==> BuildingOk(groups[h], AllItems(cs), h)
    requires Catalogued(ordered, cs) && IdsDistinct(cs) && Explains(unknowns, ordered)
    ensures StrictlySortedBy(r, GroupKey)
    ensures forall h :: h in HashesOf(AllItems(cs)) <==> exists g :: g in r && g.hash == h
    ensures forall g :: g in r ==> IsGroup(g, cs, Infos(ordered))
  {
    hide BuildingOk, IsGroup, Catalogued, IdsDistinct, Explains, HashesOf, AllItems;
    var todo := groups.Keys;
    var built: seq<ContentGroup> := [];
    while todo != {}
      invariant todo <= groups.Keys
      invariant forall g :: g in built ==> IsGroup(g, cs, Infos(ordered)) && g.hash in groups && g.hash !in todo
      invariant forall h :: h in groups && h !in todo ==> exists g :: g in built && g.hash == h
      invariant KeysDistinct(built, GroupKey)
    {
      var h :| h in todo;
      todo := todo - {h};
      var g := BuildGroup(h, groups[h], ordered, unknowns, cs);
      ghost var before := built;
      built := built + [g];
      forall h' | h' in groups && h' !in todo ensures exists g' :: g' in built && g'.hash == h' {
        if h' == h { assert g in built; }
        else { var g' :| g' in before && g'.hash == h'; assert g' in built; }
      }
      forall i, j | 0 <= i < j < |built| ensures GroupKey(built[i]) != GroupKey(built[j]) {
        assert built[i] in before;
      }
    }
    r := SortBy(built, GroupKey);
    SortByStrict(built, GroupKey);
    SortByElements(built, GroupKey);
    forall h ensures h in groups <==> exists g :: g in r && g.hash == h {
      if h in groups { var g :| g in built && g.hash == h; assert g in r; }
    }
  }

  method Group(sources: seq<Source>) returns (r: Result<Coverage>)
    ensures r.Err? <==> Rejected(sources)
    ensures r.Ok? ==> Identified(CatalogsOf(sources)) && IsCoverage(r.value, CatalogsOf(sources))
  {
    hide LedgerOk, NoStrayAliases, IsCoverage, Identified, RepeatsSourceId, Rejected;
    var ordered := SortBy(sources, SourceKey);
    OrderedSources(sources);
    var k := 1;
    while k < |ordered|
      invariant 1 <= k && (forall i, j :: 0 <= i < j < k && j < |ordered| ==> ordered[i].id < ordered[j].id)
    {
      assert KeyLe(SourceKey(ordered[k - 1]), SourceKey(ordered[k]));
      if ordered[k - 1].id == ordered[k].id {
        RepeatFound(sources, k);
        return Err;
      }
      k := k + 1;
    }
    var ledger, unknowns, bad := PostSources(ordered);
    if bad {
      RejectedByRows(sources);
      return Err;
    }
    AcceptedSources(sources);
    ghost var cs := CatalogsOf(sources);
    LedgerParts(ledger, AllItems(cs));
    var groups := BuildGroups(ledger.groups, ordered, unknowns, cs);
    r := Ok(Coverage(Infos(ordered), groups,
                     SortBy(ledger.unknownContent, UnknownKey), SortBy(ledger.exclusions, ExclusionKey)));
    AssembledCoverage(ledger, ordered, groups, cs);
  }

  lemma OrderedSources(sources: seq<Source>)
    ensures SortedBy(SortBy(sources, SourceKey), SourceKey)
    ensures forall s :: s in SortBy(sources, SourceKey) <==> s in sources
  {
    SortBySorted(sources, SourceKey);
    SortByElements(sources, SourceKey);
  }

  lemma RepeatFound(sources: seq<Source>, k: nat)
    requires var o := SortBy(sources, SourceKey); 0 < k < |o| && o[k - 1].id == o[k].id
    ensures Rejected(sources)
  {
    var o := SortBy(sources, SourceKey);
    assert SourceKey(o[k - 1]) == SourceKey(o[k]);
    RepeatSurvivesSort(sources, SourceKey);
  }

  // Each source's rows in turn; `bad` when one is unusable or repeats a file id.
  method PostSources(ordered: seq<Source>) returns (ledger: Ledger, unknowns: seq<UnknownRows>, bad: bool)
    requires forall i, j :: 0 <= i < j < |ordered| ==> ordered[i].id < ordered[j].id
    ensures bad <==> exists s :: s in ordered && (Unusable(s) || RepeatsFileId(s.rows))
    ensures !bad ==> LedgerOk(ledger, AllItems(CatalogsOf(ordered))) && Explains(unknowns, ordered)
  {
    hide LedgerOk, NoStrayAliases, RepeatsFileId, Unusable, ItemsBefore, FateOf, UnknownRows.Valid, UnexplainedIn;
    ledger, unknowns, bad := Ledger(map[], [], []), [], false;
    ghost var items: Items := {};
    EmptyLedger();
    for k := 0 to |ordered|
      invariant items == AllItems(CatalogsOf(ordered[..k]))
      invariant LedgerOk(ledger, items) && NoStrayAliases(items)
      invariant |unknowns| == k
      invariant forall j :: 0 <= j < k ==> fresh(unknowns[j]) && unknowns[j].Valid()
      invariant forall j :: 0 <= j < k ==> unknowns[j].rows == UnexplainedIn(CatalogOf(ordered[j]), ordered[j].rows)
      invariant forall j :: 0 <= j < k ==> !Unusable(ordered[j]) && !RepeatsFileId(ordered[j].rows)
    {
      var s := ordered[k];
      if Unusable(s) { bad := true; return; }
      var latest := LatestIds(s.rows);
      if latest.None? { bad := true; return; }
      NextSource(ordered, k);
      var links, unknown;
      ledger, links, unknown := PostRows(s, latest.value, ledger, items);
      ledger := PostLinks(s, links, ledger, items);
      unknowns := unknowns + [unknown];
      items := items + AllItems({CatalogOf(s)});
    }
    assert ordered[..|ordered|] == ordered;
    assert forall s :: s in ordered ==> exists j :: 0 <= j < |ordered| && ordered[j] == s;
  }

  lemma EmptyLedger()
    ensures LedgerOk(Ledger(map[], [], []), {}) && NoStrayAliases({}) && AllItems(CatalogsOf([])) == {}
  {
  }

  lemma NextSource(ordered: seq<Source>, k: nat)
    requires k < |ordered| && forall i, j :: 0 <= i < j < |ordered| ==> ordered[i].id < ordered[j].id
    ensures NoneOf(AllItems(CatalogsOf(ordered[..k])), ordered[k].id)
    ensures AllItems(CatalogsOf(ordered[..k + 1])) == AllItems(CatalogsOf(ordered[..k])) + AllItems({CatalogOf(ordered[k])})
  {
    assert ordered[..k + 1] == ordered[..k] + [ordered[k]];
    assert CatalogsOf(ordered[..k + 1]) == CatalogsOf(ordered[..k]) + {CatalogOf(ordered[k])};
  }

  lemma RejectedByRows(sources: seq<Source>)
    requires exists s :: s in SortBy(sources, SourceKey) && (Unusable(s) || RepeatsFileId(s.rows))
    ensures Rejected(sources)
  {
    SortByElements(sources, SourceKey);
  }

  lemma AcceptedSources(sources: seq<Source>)
    requires forall s :: s in SortBy(sources, SourceKey) ==> !Unusable(s) && !RepeatsFileId(s.rows)
    requires var o := SortBy(sources, SourceKey); forall i, j :: 0 <= i < j < |o| ==> o[i].id < o[j].id
    ensures !Rejected(sources)
    ensures Catalogued(SortBy(sources, SourceKey), CatalogsOf(sources)) && Identified(CatalogsOf(sources))
    ensures CatalogsOf(SortBy(sources, SourceKey)) == CatalogsOf(sources)
  {
    RepeatSurvivesSort(sources, SourceKey);
    var cs := CatalogsOf(sources);
    SortByElements(sources, SourceKey);
    forall c, d | c in cs && d in cs && c.info.id == d.info.id ensures c == d {
      var s :| s in sources && CatalogOf(s) == c;
      var t :| t in sources && CatalogOf(t) == d;
      var i :| 0 <= i < |sources| && sources[i] == s;
      var j :| 0 <= j < |sources| && sources[j] == t;
    }
    forall c, r, r' | c in cs && r in c.rows && r' in c.rows && r.fileId == r'.fileId ensures r == r' {
      var s :| s in sources && CatalogOf(s) == c;
      var i :| 0 <= i < |s.rows| && s.rows[i] == r;
      var j :| 0 <= j < |s.rows| && s.rows[j] == r';
      assert !RepeatsFileId(s.rows);
    }
  }

  lemma LedgerParts(l: Ledger, items: Items)
    requires LedgerOk(l, items)
    ensures l.groups.Keys == HashesOf(items) && forall h :: h in l.groups ==> BuildingOk(l.groups[h], items, h)
  {
  }

  lemma AssembledCoverage(l: Ledger, ordered: seq<Source>, groups: seq<ContentGroup>, cs: set<Catalog>)
    requires LedgerOk(l, AllItems(cs)) && Catalogued(ordered, cs) && Identified(cs)
    requires StrictlySortedBy(groups, GroupKey)
    requires forall h :: h in HashesOf(AllItems(cs)) <==> exists g :: g in groups && g.hash == h
    requires forall g :: g in groups ==> IsGroup(g, cs, Infos(ordered))
    ensures IsCoverage(Coverage(Infos(ordered), groups, SortBy(l.unknownContent, UnknownKey), SortBy(l.exclusions, ExclusionKey)), cs)
  {
    hide IsGroup, HashesOf, AllItems, UnknownsOf, ExclusionsOf, BuildingOk;
    KeysInjective(cs);
    SortedLists(l.unknownContent, UnknownsOf(AllItems(cs)), UnknownKey);
    SortedLists(l.exclusions, ExclusionsOf(AllItems(cs)), ExclusionKey);
    InfosListed(ordered, cs);
  }

  lemma InfosListed(ordered: seq<Source>, cs: set<Catalog>)
    requires Catalogued(ordered, cs)
    ensures Lists(Infos(ordered), set c | c in cs :: c.info, InfoKey)
  {
    var infos, all := Infos(ordered), set c | c in cs :: c.info;
    forall k | 0 <= k < |infos| ensures infos[k] in all {
      assert CatalogOf(ordered[k]) in cs by { assert ordered[k] in ordered; }
    }
    forall c | c in cs ensures c.info in infos {
      var s :| s in ordered && CatalogOf(s) == c;
      var k :| 0 <= k < |ordered| && ordered[k] == s;
      assert infos[k] == c.info;
    }
  }

  // ----- main results

  // Every way of presenting the same sources: the sources and the rows of each in any order.
  function Normal(s: Source): (SourceInfo, multiset<Row>) {
    (SourceInfo(s.id, s.name, s.evidence), multiset(s.rows))
  }

  function Normals(sources: seq<Source>): seq<(SourceInfo, multiset<Row>)> {
    seq(|sources|, i requires 0 <= i < |sources| => Normal(sources[i]))
  }

  ghost predicate Reordered(a: seq<Source>, b: seq<Source>) {
    multiset(Normals(a)) == multiset(Normals(b))
  }

  lemma NormalsMembers(sources: seq<Source>)
    ensures forall n :: n in Normals(sources) <==> exists s :: s in sources && Normal(s) == n
  {
    var ns := Normals(sources);
    forall n ensures n in ns <==> exists s :: s in sources && Normal(s) == n {
      if n in ns {
        var k :| 0 <= k < |ns| && ns[k] == n;
        assert sources[k] in sources && Normal(sources[k]) == n;
      }
      if s :| s in sources && Normal(s) == n {
        var k :| 0 <= k < |sources| && sources[k] == s;
        assert ns[k] == n;
      }
    }
  }

  lemma ReorderedHas(a: seq<Source>, b: seq<Source>, s: Source) returns (t: Source)
    requires Reordered(a, b) && s in a
    ensures t in b && Normal(t) == Normal(s) && CatalogOf(t) == CatalogOf(s)
  {
    NormalsMembers(a);
    NormalsMembers(b);
    assert Normal(s) in Normals(a);
    assert Normal(s) in multiset(Normals(a));
    assert Normal(s) in multiset(Normals(b));
    assert Normal(s) in Normals(b);
    t :| t in b && Normal(t) == Normal(s);
    assert forall r :: r in s.rows <==> r in multiset(s.rows);
    assert forall r :: r in t.rows <==> r in multiset(t.rows);
  }

  lemma CatalogsSubset(a: seq<Source>, b: seq<Source>)
    requires Reordered(a, b)
    ensures CatalogsOf(a) <= CatalogsOf(b)
  {
    forall c | c in CatalogsOf(a) ensures c in CatalogsOf(b) {
      var s :| s in a && CatalogOf(s) == c;
      var t := ReorderedHas(a, b, s);
    }
  }

  function FileIdKey(r: Row): Key { Key(0, 0, [], r.fileId, 0) }

  function NormalKey(n: (SourceInfo, multiset<Row>)): Key { Key(0, n.0.id, [], 0, 0) }

  lemma RejectionTransfers(a: seq<Source>, b: seq<Source>)
    requires Reordered(a, b) && Rejected(a)
    ensures Rejected(b)
  {
    if RepeatsSourceId(a) {
      RepeatsByMultiset(Normals(a), NormalKey);
      RepeatsByMultiset(Normals(b), NormalKey);
      RepeatsAsNormals(a);
      RepeatsAsNormals(b);
    } else {
      var s :| s in a && (Unusable(s) || RepeatsFileId(s.rows));
      var t := ReorderedHas(a, b, s);
      SameRows(s, t);
    }
  }

  lemma RepeatsAsNormals(sources: seq<Source>)
    ensures RepeatsSourceId(sources) <==> !KeysDistinct(Normals(sources), NormalKey)
  {
    var ns := Normals(sources);
    assert forall k :: 0 <= k < |ns| ==> NormalKey(ns[k]).root == sources[k].id;
    if RepeatsSourceId(sources) {
      var i, j :| 0 <= i < j < |sources| && sources[i].id == sources[j].id;
      assert NormalKey(ns[i]) == NormalKey(ns[j]);
    }
  }

  lemma SameRows(s: Source, t: Source)
    requires Normal(s) == Normal(t)
    ensures Unusable(s) ==> Unusable(t)
    ensures RepeatsFileId(s.rows) ==> RepeatsFileId(t.rows)
  {
    assert |s.rows| == |multiset(s.rows)| == |multiset(t.rows)| == |t.rows|;
    forall r | r in s.rows ensures r in t.rows {
      assert r in multiset(s.rows);
    }
    RepeatsByMultiset(s.rows, FileIdKey);
    RepeatsByMultiset(t.rows, FileIdKey);
    RepeatsAsKeys(s.rows);
    RepeatsAsKeys(t.rows);
  }

  lemma RepeatsAsKeys(rows: seq<Row>)
    ensures RepeatsFileId(rows) <==> !KeysDistinct(rows, FileIdKey)
  {
    if RepeatsFileId(rows) {
      var i, j :| 0 <= i < j < |rows| && rows[i].fileId == rows[j].fileId;
      assert FileIdKey(rows[i]) == FileIdKey(rows[j]);
    }
  }

  // Reordering the sources, or the rows of any source, changes nothing: the same input is
  // refused, and the same report is produced otherwise.
  lemma OrderInvisible(a: seq<Source>, b: seq<Source>, cov: Coverage, cov': Coverage)
    requires Reordered(a, b)
    ensures Rejected(a) <==> Rejected(b)
    ensures Identified(CatalogsOf(a)) && IsCoverage(cov, CatalogsOf(a)) && IsCoverage(cov', CatalogsOf(b)) ==> cov == cov'
  {
    hide IsCoverage, Rejected;
    if Rejected(a) { RejectionTransfers(a, b); }
    if Rejected(b) { RejectionTransfers(b, a); }
    CatalogsSubset(a, b);
    CatalogsSubset(b, a);
    assert CatalogsOf(a) == CatalogsOf(b);
    if Identified(CatalogsOf(a)) && IsCoverage(cov, CatalogsOf(a)) && IsCoverage(cov', CatalogsOf(b)) {
      CoverageUnique(cov, cov', CatalogsOf(a));
    }
  }

  // ----- every row once

  function GroupRefs(gs: seq<ContentGroup>): seq<RowRef> {
    if |gs| == 0 then [] else gs[0].copies + gs[0].aliases + GroupRefs(gs[1..])
  }

  function UnknownRefs(us: seq<UnknownContent>): seq<RowRef> {
    seq(|us|, k requires 0 <= k < |us| => us[k].ref)
  }

  function ExclusionRefs(es: seq<Exclusion>): seq<RowRef> {
    seq(|es|, k requires 0 <= k < |es| => es[k].ref)
  }

  function ListedRefs(cov: Coverage): seq<RowRef> {
    GroupRefs(cov.groups) + UnknownRefs(cov.unknownContent) + ExclusionRefs(cov.exclusions)
  }

  ghost function FatedRefs(items: Items, fates: iset<Fate>): set<RowRef> {
    set i | i in items && FateOf(i.0.rows, i.1) in fates :: RefOf(i.0, i.1)
  }

  ghost predicate Once(refs: seq<RowRef>, items: Items, fates: iset<Fate>) {
    Distinct(refs) && forall ref :: ref in refs <==> ref in FatedRefs(items, fates)
  }

  // Rows with different fates are different rows.
  lemma FatesApart(cs: set<Catalog>, a: iset<Fate>, b: iset<Fate>)
    requires Identified(cs) && a !! b
    ensures FatedRefs(AllItems(cs), a) !! FatedRefs(AllItems(cs), b)
  {
    hide FateOf;
  }

  lemma OnceTogether(cs: set<Catalog>, r: seq<RowRef>, s: seq<RowRef>, a: iset<Fate>, b: iset<Fate>)
    requires Identified(cs) && a !! b && Once(r, AllItems(cs), a) && Once(s, AllItems(cs), b)
    ensures Once(r + s, AllItems(cs), a + b)
  {
    FatesApart(cs, a, b);
    DistinctConcat(r, s);
    hide FateOf;
    assert FatedRefs(AllItems(cs), a + b) == FatedRefs(AllItems(cs), a) + FatedRefs(AllItems(cs), b);
  }

  ghost function GroupFates(gs: seq<ContentGroup>): iset<Fate> {
    iset f: Fate | (f.Copy? || f.Alias?) && exists g :: g in gs && g.hash == f.hash
  }

  lemma ListOnce(refs: seq<RowRef>, cs: set<Catalog>, fate: Fate)
    requires Lists(refs, Refs(AllItems(cs), fate), RefKey)
    ensures Once(refs, AllItems(cs), iset{fate})
  {
    hide FateOf;
    assert Refs(AllItems(cs), fate) == FatedRefs(AllItems(cs), iset{fate});
  }

  lemma {:induction false} GroupsOnce(gs: seq<ContentGroup>, cs: set<Catalog>, infos: seq<SourceInfo>)
    requires Identified(cs) && StrictlySortedBy(gs, GroupKey) && forall g :: g in gs ==> IsGroup(g, cs, infos)
    ensures Once(GroupRefs(gs), AllItems(cs), GroupFates(gs))
  {
    hide IsGroup, Identified, Once;
    if |gs| == 0 {
      NothingOnce(cs);
      assert GroupFates(gs) == iset{};
    } else {
      var g := gs[0];
      assert g in gs;
      GroupListsOnce(g, cs, infos);
      OnceTogether(cs, g.copies, g.aliases, iset{Copy(g.hash)}, iset{Alias(g.hash)});
      GroupsOnce(gs[1..], cs, infos);
      LaterHashes(gs);
      OnceTogether(cs, g.copies + g.aliases, GroupRefs(gs[1..]), iset{Copy(g.hash)} + iset{Alias(g.hash)}, GroupFates(gs[1..]));
      assert GroupFates(gs) == iset{Copy(g.hash)} + iset{Alias(g.hash)} + GroupFates(gs[1..]);
    }
  }

  lemma GroupListsOnce(g: ContentGroup, cs: set<Catalog>, infos: seq<SourceInfo>)
    requires IsGroup(g, cs, infos)
    ensures Once(g.copies, AllItems(cs), iset{Copy(g.hash)}) && Once(g.aliases, AllItems(cs), iset{Alias(g.hash)})
  {
    ListOnce(g.copies, cs, Copy(g.hash));
    ListOnce(g.aliases, cs, Alias(g.hash));
  }

  lemma LaterHashes(gs: seq<ContentGroup>)
    requires |gs| > 0 && StrictlySortedBy(gs, GroupKey)
    ensures iset{Copy(gs[0].hash)} + iset{Alias(gs[0].hash)} !! GroupFates(gs[1..])
    ensures GroupFates(gs) == iset{Copy(gs[0].hash)} + iset{Alias(gs[0].hash)} + GroupFates(gs[1..])
  {
    forall g | g in gs[1..] ensures g.hash != gs[0].hash {
      var k :| 1 <= k < |gs| && gs[k] == g;
      assert KeyLt(GroupKey(gs[0]), GroupKey(gs[k]));
    }
    assert gs == [gs[0]] + gs[1..];
  }

  lemma NothingOnce(cs: set<Catalog>)
    ensures Once([], AllItems(cs), iset{})
  {
    hide FateOf;
  }

  // Every input row appears exactly once: as a copy or alias, as unknown content, or as an
  // exclusion.
  lemma EveryRowOnce(cov: Coverage, cs: set<Catalog>)
    requires Identified(cs) && IsCoverage(cov, cs)
    ensures Distinct(ListedRefs(cov))
    ensures forall ref :: ref in ListedRefs(cov) <==> exists i :: i in AllItems(cs) && RefOf(i.0, i.1) == ref
  {
    var unknown, excluded := iset f: Fate | f.Unexplained?, iset f: Fate | f.Excluded?;
    GroupsOnce(cov.groups, cs, cov.sources);
    UnknownOnce(cov, cs);
    ExcludedOnce(cov, cs);
    OnceTogether(cs, GroupRefs(cov.groups), UnknownRefs(cov.unknownContent), GroupFates(cov.groups), unknown);
    OnceTogether(cs, GroupRefs(cov.groups) + UnknownRefs(cov.unknownContent), ExclusionRefs(cov.exclusions),
                 GroupFates(cov.groups) + unknown, excluded);
    AllFatesListed(cov, cs);
  }

  lemma UnknownOnce(cov: Coverage, cs: set<Catalog>)
    requires Identified(cs) && IsCoverage(cov, cs)
    ensures Once(UnknownRefs(cov.unknownContent), AllItems(cs), iset f: Fate | f.Unexplained?)
  {
    hide FateOf, IsGroup;
    var us, refs := cov.unknownContent, UnknownRefs(cov.unknownContent);
    forall i, j | 0 <= i < j < |refs| ensures refs[i] != refs[j] {
      assert KeyLt(UnknownKey(us[i]), UnknownKey(us[j]));
    }
    forall ref ensures ref in refs <==> ref in FatedRefs(AllItems(cs), iset f: Fate | f.Unexplained?) {
      if ref in refs {
        var k :| 0 <= k < |refs| && refs[k] == ref;
        assert us[k] in UnknownsOf(AllItems(cs));
      }
      if i :| i in AllItems(cs) && FateOf(i.0.rows, i.1).Unexplained? && RefOf(i.0, i.1) == ref {
        var u := UnknownContent(ref, i.1.size, FateOf(i.0.rows, i.1).reason);
        assert u in us;
        var k :| 0 <= k < |us| && us[k] == u;
        assert refs[k] == ref;
      }
    }
  }

  lemma ExcludedOnce(cov: Coverage, cs: set<Catalog>)
    requires Identified(cs) && IsCoverage(cov, cs)
    ensures Once(ExclusionRefs(cov.exclusions), AllItems(cs), iset f: Fate | f.Excluded?)
  {
    hide FateOf, IsGroup;
    var es, refs := cov.exclusions, ExclusionRefs(cov.exclusions);
    forall i, j | 0 <= i < j < |refs| ensures refs[i] != refs[j] {
      assert KeyLt(ExclusionKey(es[i]), ExclusionKey(es[j]));
    }
    forall ref ensures ref in refs <==> ref in FatedRefs(AllItems(cs), iset f: Fate | f.Excluded?) {
      if ref in refs {
        var k :| 0 <= k < |refs| && refs[k] == ref;
        assert es[k] in ExclusionsOf(AllItems(cs));
      }
      if i :| i in AllItems(cs) && FateOf(i.0.rows, i.1).Excluded? && RefOf(i.0, i.1) == ref {
        var e := Exclusion(ref, FateOf(i.0.rows, i.1).why);
        assert e in es;
        var k :| 0 <= k < |es| && es[k] == e;
        assert refs[k] == ref;
      }
    }
  }

  lemma AllFatesListed(cov: Coverage, cs: set<Catalog>)
    requires IsCoverage(cov, cs)
    ensures forall i :: i in AllItems(cs) ==>
              FateOf(i.0.rows, i.1) in GroupFates(cov.groups) + (iset f: Fate | f.Unexplained?) + (iset f: Fate | f.Excluded?)
  {
    forall i | i in AllItems(cs)
      ensures FateOf(i.0.rows, i.1) in GroupFates(cov.groups) + (iset f: Fate | f.Unexplained?) + (iset f: Fate | f.Excluded?)
    {
      var f := FateOf(i.0.rows, i.1);
      if f.Copy? {
        assert f.hash in HashesOf(AllItems(cs));
      } else if f.Alias? {
        var x :| x in i.0.rows && IsCopy(i.0.rows, x, f.hash);
        assert (i.0, x) in AllItems(cs) && FateOf(i.0.rows, x) == Copy(f.hash);
        assert f.hash in HashesOf(AllItems(cs));
      }
    }
  }
}
