/**
 Minimum-copy floors (src/core/floors.rs): every content group is judged against a replica
 target, counting only copies in sources whose status is trusted.
 */
module Floors {
  import opened Basics
  import opened Order
  import opened Coverage
  import opened Worlds

  datatype Status = OkStatus | IncompleteIndex | StaleIndex | DbMissing | ArchiveMissing

  predicate Counts(s: Status) {
    s == OkStatus || s == IncompleteIndex
  }

  datatype Params = Params(minCopies: nat, minSize: nat, includeEmpty: bool)

  datatype Verdict = MeetsFloor | BelowFloor | Inconclusive

  datatype FloorCopy = FloorCopy(ref: RowRef, status: Status, counts: bool, guarded: bool)

  datatype GroupFloor = GroupFloor(
    hash: nat, size: Option<nat>, verdict: Verdict, onlyCopy: bool,
    trusted: nat, untrusted: nat, guarded: nat, unknown: nat,
    copies: seq<FloorCopy>, aliases: seq<RowRef>)

  datatype ScopeReason = EmptyContent | BelowMinSize

  datatype GroupExclusion = GroupExclusion(
    hash: nat, size: Option<nat>, reason: ScopeReason, copies: seq<FloorCopy>, aliases: seq<RowRef>)

  datatype Summary = Summary(meetsFloor: nat, belowFloor: nat, inconclusive: nat, onlyCopy: nat, guardedReplicas: nat)

  datatype FloorReport = FloorReport(groups: seq<GroupFloor>, excluded: seq<GroupExclusion>, summary: Summary)

  // What the caller says about the sources: a status each, and which are protected.
  datatype Standing = Standing(status: map<int, Status>, guarded: set<int>)

  // ----- arguments

  ghost predicate Repeats<T(!new)>(s: seq<T>, id: T -> int) {
    exists i, j :: 0 <= i < j < |s| && id(s[i]) == id(s[j])
  }

  function IdOf(p: (int, Status)): int { p.0 }

  function Self(id: int): int { id }

  ghost predicate BadArguments(cov: Coverage, statuses: seq<(int, Status)>, guarded: seq<int>, params: Params) {
    || params.minCopies == 0
    || Repeats(statuses, IdOf)
    || (exists i :: i in cov.sources && forall p :: p in statuses ==> p.0 != i.id)
    || (exists p :: p in statuses && forall i :: i in cov.sources ==> i.id != p.0)
    || (exists id :: id in guarded && forall i :: i in cov.sources ==> i.id != id)
    || Repeats(guarded, Self)
  }

  ghost predicate IsStanding(st: Standing, statuses: seq<(int, Status)>, guarded: seq<int>) {
    && (forall id, s :: id in st.status && st.status[id] == s <==> (id, s) in statuses)
    && (forall id :: id in st.guarded <==> id in guarded)
  }

  // ----- judging one group

  function OutOfScope(size: Option<nat>, params: Params): Option<ScopeReason> {
    if size == Some(0) && !params.includeEmpty then Some(EmptyContent)
    else if size.Some? && size.value < params.minSize then Some(BelowMinSize)
    else None
  }

  function FloorCopyOf(st: Standing, ref: RowRef): FloorCopy
    requires ref.sourceId in st.status
  {
    var status := st.status[ref.sourceId];
    FloorCopy(ref, status, Counts(status), ref.sourceId in st.guarded)
  }

  ghost predicate Covers(st: Standing, g: ContentGroup) {
    && (forall p :: p in g.presence ==> p.sourceId in st.status)
    && (forall ref :: ref in g.copies ==> ref.sourceId in st.status)
  }

  function FloorCopies(st: Standing, refs: seq<RowRef>): seq<FloorCopy>
    requires forall ref :: ref in refs ==> ref.sourceId in st.status
  {
    seq(|refs|, k requires 0 <= k < |refs| => assert refs[k] in refs; FloorCopyOf(st, refs[k]))
  }

  predicate Trusted(st: Standing, p: SourcePresence) {
    p.presence.Present? && p.sourceId in st.status && Counts(st.status[p.sourceId])
  }

  // Sources listed with a presence that satisfies a test.
  ghost function Sources(ps: seq<SourcePresence>, test: SourcePresence -> bool): set<int> {
    set p | p in ps && test(p) :: p.sourceId
  }

  function IsTrusted(st: Standing): SourcePresence -> bool {
    (p: SourcePresence) => Trusted(st, p)
  }

  function IsUntrusted(st: Standing): SourcePresence -> bool {
    (p: SourcePresence) => p.presence.Present? && !Trusted(st, p)
  }

  predicate IsUnknown(p: SourcePresence) { p.presence.Unknown? }

  ghost function TrustedSources(st: Standing, ps: seq<SourcePresence>): set<int> {
    Sources(ps, IsTrusted(st))
  }

  ghost function UntrustedSources(st: Standing, ps: seq<SourcePresence>): set<int> {
    Sources(ps, IsUntrusted(st))
  }

  ghost function UnknownSources(ps: seq<SourcePresence>): set<int> {
    Sources(ps, IsUnknown)
  }

  function VerdictOf(trusted: nat, unknown: nat, params: Params): Verdict {
    if trusted >= params.minCopies then MeetsFloor
    else if unknown > 0 then Inconclusive
    else BelowFloor
  }

  ghost predicate IsFloor(f: GroupFloor, g: ContentGroup, st: Standing, params: Params) {
    && f.hash == g.hash && f.size == g.size && f.aliases == g.aliases
    && Covers(st, g) && f.copies == FloorCopies(st, g.copies)
    && f.trusted == |TrustedSources(st, g.presence)|
    && f.untrusted == |UntrustedSources(st, g.presence)|
    && f.guarded == |TrustedSources(st, g.presence) * st.guarded|
    && f.unknown == |UnknownSources(g.presence)|
    && f.verdict == VerdictOf(f.trusted, f.unknown, params)
    && (f.onlyCopy <==> f.trusted == 1 && f.unknown == 0)
  }

  // In-scope groups in order, then out-of-scope groups in order.
  ghost predicate Judges(floors: seq<GroupFloor>, excluded: seq<GroupExclusion>, gs: seq<ContentGroup>, st: Standing, params: Params) {
    if |gs| == 0 then floors == [] && excluded == []
    else
      var g, front := gs[|gs| - 1], gs[..|gs| - 1];
      match OutOfScope(g.size, params)
      case None =>
        |floors| > 0 && IsFloor(floors[|floors| - 1], g, st, params) && Judges(floors[..|floors| - 1], excluded, front, st, params)
      case Some(reason) =>
        |excluded| > 0 && Covers(st, g)
        && excluded[|excluded| - 1] == GroupExclusion(g.hash, g.size, reason, FloorCopies(st, g.copies), g.aliases)
        && Judges(floors, excluded[..|excluded| - 1], front, st, params)
  }

  function CountVerdict(fs: seq<GroupFloor>, v: Verdict): nat {
    if |fs| == 0 then 0 else CountVerdict(fs[..|fs| - 1], v) + (if fs[|fs| - 1].verdict == v then 1 else 0)
  }

  function CountOnly(fs: seq<GroupFloor>): nat {
    if |fs| == 0 then 0 else CountOnly(fs[..|fs| - 1]) + (if fs[|fs| - 1].onlyCopy then 1 else 0)
  }

  function SumGuarded(fs: seq<GroupFloor>): nat {
    if |fs| == 0 then 0 else SumGuarded(fs[..|fs| - 1]) + fs[|fs| - 1].guarded
  }

  function SummaryOf(fs: seq<GroupFloor>): Summary {
    Summary(CountVerdict(fs, MeetsFloor), CountVerdict(fs, BelowFloor), CountVerdict(fs, Inconclusive), CountOnly(fs), SumGuarded(fs))
  }

  // ----- the evaluation loop

  ghost predicate IdsDistinctIn(ps: seq<SourcePresence>) {
    forall i, j :: 0 <= i < j < |ps| ==> ps[i].sourceId != ps[j].sourceId
  }

  lemma SourcesSnoc(ps: seq<SourcePresence>, p: SourcePresence, test: SourcePresence -> bool)
    requires IdsDistinctIn(ps + [p])
    ensures Sources(ps + [p], test) == Sources(ps, test) + (if test(p) then {p.sourceId} else {})
    ensures p.sourceId !in Sources(ps, test)
  {
    var more := ps + [p];
    forall q | q in ps ensures q.sourceId != p.sourceId {
      var i :| 0 <= i < |ps| && ps[i] == q;
      assert more[i].sourceId != more[|ps|].sourceId;
    }
    assert forall q :: q in more <==> q in ps || q == p;
  }

  method Tally(st: Standing, ps: seq<SourcePresence>) returns (trusted: nat, untrusted: nat, unknown: nat, guarded: nat)
    requires IdsDistinctIn(ps) && forall p :: p in ps ==> p.sourceId in st.status
    ensures trusted == |TrustedSources(st, ps)| && untrusted == |UntrustedSources(st, ps)|
    ensures unknown == |UnknownSources(ps)| && guarded == |TrustedSources(st, ps) * st.guarded|
  {
    hide Sources;
    trusted, untrusted, unknown, guarded := 0, 0, 0, 0;
    NoSources(st);
    for k := 0 to |ps|
      invariant trusted == |TrustedSources(st, ps[..k])| && untrusted == |UntrustedSources(st, ps[..k])|
      invariant unknown == |UnknownSources(ps[..k])| && guarded == |TrustedSources(st, ps[..k]) * st.guarded|
    {
      var p := ps[k];
      assert p in ps;
      TallySnoc(st, ps, k);
      match p.presence {
        case Present(_) =>
          if Counts(st.status[p.sourceId]) {
            trusted := trusted + 1;
            if p.sourceId in st.guarded { guarded := guarded + 1; }
          } else {
            untrusted := untrusted + 1;
          }
        case Unknown(_) => unknown := unknown + 1;
        case Absent =>
      }
    }
    assert ps[..|ps|] == ps;
  }

  lemma NoSources(st: Standing)
    ensures TrustedSources(st, []) == {} && UntrustedSources(st, []) == {} && UnknownSources([]) == {}
  {
  }

  lemma TallySnoc(st: Standing, ps: seq<SourcePresence>, k: nat)
    requires k < |ps| && IdsDistinctIn(ps)
    ensures var p, front, more := ps[k], ps[..k], ps[..k + 1];
            && |TrustedSources(st, more)| == |TrustedSources(st, front)| + (if Trusted(st, p) then 1 else 0)
            && |UntrustedSources(st, more)| == |UntrustedSources(st, front)| + (if p.presence.Present? && !Trusted(st, p) then 1 else 0)
            && |UnknownSources(more)| == |UnknownSources(front)| + (if p.presence.Unknown? then 1 else 0)
            && |TrustedSources(st, more) * st.guarded| ==
                 |TrustedSources(st, front) * st.guarded| + (if Trusted(st, p) && p.sourceId in st.guarded then 1 else 0)
  {
    hide Sources;
    var p, front := ps[k], ps[..k];
    assert ps[..k + 1] == front + [p];
    SourcesSnoc(front, p, IsTrusted(st));
    SourcesSnoc(front, p, IsUntrusted(st));
    SourcesSnoc(front, p, IsUnknown);
    OneMore(TrustedSources(st, front), p.sourceId, st.guarded);
  }

  lemma OneMore(t: set<int>, id: int, guarded: set<int>)
    requires id !in t
    ensures |t + {id}| == |t| + 1
    ensures |(t + {id}) * guarded| == |t * guarded| + (if id in guarded then 1 else 0)
  {
    assert (t + {id}) * guarded == t * guarded + (if id in guarded then {id} else {});
  }

  method FloorCopyList(st: Standing, refs: seq<RowRef>) returns (copies: seq<FloorCopy>)
    requires forall ref :: ref in refs ==> ref.sourceId in st.status
    ensures copies == FloorCopies(st, refs)
  {
    copies := [];
    for k := 0 to |refs|
      invariant copies == FloorCopies(st, refs)[..k]
    {
      assert refs[k] in refs;
      copies := copies + [FloorCopyOf(st, refs[k])];
    }
  }

  // Statuses into a map, protected ids into a set, with every refusal on the way.
  method ReadStanding(cov: Coverage, statuses: seq<(int, Status)>, guarded: seq<int>, params: Params) returns (st: Option<Standing>)
    ensures st.None? <==> BadArguments(cov, statuses, guarded, params)
    ensures st.Some? ==> IsStanding(st.value, statuses, guarded)
    ensures st.Some? ==> st.value.status.Keys == set i | i in cov.sources :: i.id
  {
    hide Repeats;
    if params.minCopies == 0 { return None; }
    var status := ReadStatuses(statuses);
    if status.None? { return None; }
    var ids := set i | i in cov.sources :: i.id;
    if exists id :: id in ids && id !in status.value {
      var id :| id in ids && id !in status.value;
      var i :| i in cov.sources && i.id == id;
      assert forall p :: p in statuses ==> p.0 != i.id by { StatusKeys(status.value, statuses); }
      return None;
    }
    StatusKeys(status.value, statuses);
    assert forall i :: i in cov.sources ==> i.id in ids;
    if exists id :: id in status.value && id !in ids { return None; }
    var seen := ReadGuarded(ids, guarded);
    if seen.None? { return None; }
    st := Some(Standing(status.value, seen.value));
  }

  lemma StatusKeys(m: map<int, Status>, statuses: seq<(int, Status)>)
    requires forall id, s :: id in m && m[id] == s <==> (id, s) in statuses
    ensures forall id :: id in m <==> exists p :: p in statuses && p.0 == id
  {
    forall id ensures id in m <==> exists p :: p in statuses && p.0 == id {
      if id in m { assert (id, m[id]) in statuses; }
      if p :| p in statuses && p.0 == id { assert p == (id, p.1); }
    }
  }

  method ReadStatuses(statuses: seq<(int, Status)>) returns (m: Option<map<int, Status>>)
    ensures m.None? <==> Repeats(statuses, IdOf)
    ensures m.Some? ==> forall id, s :: id in m.value && m.value[id] == s <==> (id, s) in statuses
  {
    var r: map<int, Status> := map[];
    for k := 0 to |statuses|
      invariant forall id, s :: id in r && r[id] == s <==> (id, s) in statuses[..k]
      invariant forall i, j :: 0 <= i < j < k ==> IdOf(statuses[i]) != IdOf(statuses[j])
    {
      var (id, s) := statuses[k];
      assert statuses[..k + 1] == statuses[..k] + [statuses[k]];
      if id in r {
        assert (id, r[id]) in statuses[..k];
        var i :| 0 <= i < k && statuses[i] == (id, r[id]);
        assert IdOf(statuses[i]) == IdOf(statuses[k]);
        return None;
      }
      forall i | 0 <= i < k ensures IdOf(statuses[i]) != id {
        assert statuses[i] in statuses[..k] && statuses[i] == (statuses[i].0, statuses[i].1);
      }
      r := r[id := s];
    }
    assert statuses[..|statuses|] == statuses;
    m := Some(r);
  }

  method ReadGuarded(ids: set<int>, guarded: seq<int>) returns (seen: Option<set<int>>)
    ensures seen.None? <==> Repeats(guarded, Self) || exists id :: id in guarded && id !in ids
    ensures seen.Some? ==> forall id :: id in seen.value <==> id in guarded
  {
    var r: set<int> := {};
    for k := 0 to |guarded|
      invariant forall id :: id in r <==> id in guarded[..k]
      invariant forall id :: id in r ==> id in ids
      invariant forall i, j :: 0 <= i < j < k ==> Self(guarded[i]) != Self(guarded[j])
    {
      var id := guarded[k];
      assert guarded[..k + 1] == guarded[..k] + [id];
      if id !in ids { assert id in guarded; return None; }
      if id in r {
        var i :| 0 <= i < k && guarded[i] == id;
        assert Self(guarded[i]) == Self(guarded[k]);
        return None;
      }
      forall i | 0 <= i < k ensures Self(guarded[i]) != id {
        assert guarded[i] in guarded[..k];
      }
      r := r + {id};
    }
    assert guarded[..|guarded|] == guarded;
    seen := Some(r);
  }

  method Judge(g: ContentGroup, st: Standing, params: Params) returns (f: GroupFloor)
    requires Covers(st, g) && IdsDistinctIn(g.presence)
    ensures IsFloor(f, g, st, params)
  {
    var trusted, untrusted, unknown, guarded := Tally(st, g.presence);
    var copies := FloorCopyList(st, g.copies);
    f := GroupFloor(g.hash, g.size, VerdictOf(trusted, unknown, params), trusted == 1 && unknown == 0,
                    trusted, untrusted, guarded, unknown, copies, g.aliases);
  }

  ghost predicate IsJudged(r: FloorReport, cov: Coverage, statuses: seq<(int, Status)>, guarded: seq<int>, params: Params, st: Standing) {
    && IsStanding(st, statuses, guarded)
    && st.status.Keys == (set i | i in cov.sources :: i.id)
    && Judges(r.groups, r.excluded, cov.groups, st, params)
  }

  method Evaluate(cov: Coverage, statuses: seq<(int, Status)>, guarded: seq<int>, params: Params, ghost cs: set<Catalog>)
    returns (r: Result<FloorReport>)
    requires IsCoverage(cov, cs)
    ensures r.Err? <==> BadArguments(cov, statuses, guarded, params)
    ensures r.Ok? ==> exists st :: IsJudged(r.value, cov, statuses, guarded, params, st)
    ensures r.Ok? ==> r.value.summary == SummaryOf(r.value.groups)
  {
    hide IsCoverage, BadArguments, IsStanding, Covers, IsFloor;
    var read := ReadStanding(cov, statuses, guarded, params);
    if read.None? { return Err; }
    var st := read.value;
    var floors: seq<GroupFloor>, excluded: seq<GroupExclusion> := [], [];
    for k := 0 to |cov.groups|
      invariant Judges(floors, excluded, cov.groups[..k], st, params)
    {
      var g := cov.groups[k];
      assert g in cov.groups && cov.groups[..k + 1][..k] == cov.groups[..k];
      StandingCovers(cov, cs, st, g);
      PresenceIdsDistinct(cov, cs, g);
      var reason := OutOfScope(g.size, params);
      if reason.Some? {
        CoversCopies(st, g);
        var copies := FloorCopyList(st, g.copies);
        excluded := excluded + [GroupExclusion(g.hash, g.size, reason.value, copies, g.aliases)];
      } else {
        var f := Judge(g, st, params);
        floors := floors + [f];
      }
    }
    assert cov.groups[..|cov.groups|] == cov.groups;
    r := Ok(FloorReport(floors, excluded, SummaryOf(floors)));
    assert IsJudged(r.value, cov, statuses, guarded, params, st);
  }

  lemma CoversCopies(st: Standing, g: ContentGroup)
    requires Covers(st, g)
    ensures forall ref :: ref in g.copies ==> ref.sourceId in st.status
  {
  }

  // Every source named by a group is one of the report's sources, so it has a status.
  lemma StandingCovers(cov: Coverage, cs: set<Catalog>, st: Standing, g: ContentGroup)
    requires IsCoverage(cov, cs) && g in cov.groups && st.status.Keys == set i | i in cov.sources :: i.id
    ensures Covers(st, g)
  {
    assert IsGroup(g, cs, cov.sources);
    forall p | p in g.presence ensures p.sourceId in st.status {
      var c := PresenceListed(cov, cs, g, p);
      assert c.info in cov.sources;
    }
    forall ref | ref in g.copies ensures ref.sourceId in st.status {
      assert ref in Refs(AllItems(cs), Copy(g.hash));
      var i :| i in AllItems(cs) && RefOf(i.0, i.1) == ref;
      assert i.0.info in cov.sources;
    }
  }

  // ----- what a report says of a group

  // Groups of unknown length, and those long enough, are judged; empty content only on request.
  ghost predicate InScope(size: Option<nat>, params: Params) {
    size.None? || (size.value >= params.minSize && (size.value > 0 || params.includeEmpty))
  }

  // The source has an index that can be trusted, as complete as it is.
  ghost predicate TrustedIndex(st: Standing, id: int) {
    id in st.status && (st.status[id] == OkStatus || st.status[id] == IncompleteIndex)
  }

  ghost predicate Floored(floors: seq<GroupFloor>, g: ContentGroup, st: Standing, params: Params) {
    exists f :: f in floors && IsFloor(f, g, st, params)
  }

  // Left out with the reason that applies.
  ghost predicate LeftOut(excluded: seq<GroupExclusion>, g: ContentGroup, params: Params) {
    exists x :: x in excluded && x.hash == g.hash && x.size == g.size
      && x.reason == if g.size == Some(0) && !params.includeEmpty then EmptyContent else BelowMinSize
  }

  lemma FlooredSnoc(floors: seq<GroupFloor>, f: GroupFloor, g: ContentGroup, st: Standing, params: Params)
    ensures Floored(floors + [f], g, st, params) <==> Floored(floors, g, st, params) || IsFloor(f, g, st, params)
  {
    hide IsFloor;
    assert forall x :: x in floors + [f] <==> x in floors || x == f;
  }

  lemma ScopeReads(size: Option<nat>, params: Params)
    ensures OutOfScope(size, params).None? <==> InScope(size, params)
    ensures OutOfScope(size, params).Some? ==>
              OutOfScope(size, params).value == if size == Some(0) && !params.includeEmpty then EmptyContent else BelowMinSize
  {
  }

  ghost predicate AllFloored(floors: seq<GroupFloor>, gs: seq<ContentGroup>, st: Standing, params: Params) {
    forall g :: g in gs && InScope(g.size, params) ==> Floored(floors, g, st, params)
  }

  ghost predicate AllLeftOut(excluded: seq<GroupExclusion>, gs: seq<ContentGroup>, params: Params) {
    forall g :: g in gs && !InScope(g.size, params) ==> LeftOut(excluded, g, params)
  }

  lemma OneMoreFloored(floors: seq<GroupFloor>, f: GroupFloor, gs: seq<ContentGroup>, g: ContentGroup, st: Standing, params: Params)
    requires AllFloored(floors, gs, st, params) && IsFloor(f, g, st, params)
    ensures AllFloored(floors + [f], gs + [g], st, params)
  {
    hide IsFloor, Floored, InScope;
    forall x | x in gs + [g] && InScope(x.size, params) ensures Floored(floors + [f], x, st, params) {
      FlooredSnoc(floors, f, x, st, params);
    }
  }

  lemma OneMoreLeftOut(excluded: seq<GroupExclusion>, x: GroupExclusion, gs: seq<ContentGroup>, g: ContentGroup, params: Params)
    requires AllLeftOut(excluded, gs, params) && x.hash == g.hash && x.size == g.size
    requires x.reason == if g.size == Some(0) && !params.includeEmpty then EmptyContent else BelowMinSize
    ensures AllLeftOut(excluded + [x], gs + [g], params)
  {
    hide LeftOut, InScope;
    forall y | y in gs + [g] && !InScope(y.size, params) ensures LeftOut(excluded + [x], y, params) {
      LeftOutSnoc(excluded, x, y, params);
    }
  }

  lemma JudgesLast(floors: seq<GroupFloor>, excluded: seq<GroupExclusion>, gs: seq<ContentGroup>, st: Standing, params: Params)
    requires Judges(floors, excluded, gs, st, params) && |gs| > 0
    ensures var g, front := gs[|gs| - 1], gs[..|gs| - 1];
            if InScope(g.size, params) then
              |floors| > 0 && IsFloor(floors[|floors| - 1], g, st, params) && Judges(floors[..|floors| - 1], excluded, front, st, params)
            else
              && |excluded| > 0 && Judges(floors, excluded[..|excluded| - 1], front, st, params)
              && var x := excluded[|excluded| - 1];
                 && x.hash == g.hash && x.size == g.size
                 && x.reason == if g.size == Some(0) && !params.includeEmpty then EmptyContent else BelowMinSize
  {
    ScopeReads(gs[|gs| - 1].size, params);
    hide IsFloor, Covers, FloorCopies, InScope, OutOfScope;
  }

  // Exactly the groups in scope are judged, and the others left out with their reason.
  lemma {:induction false} JudgesReads(floors: seq<GroupFloor>, excluded: seq<GroupExclusion>, gs: seq<ContentGroup>, st: Standing, params: Params)
    requires Judges(floors, excluded, gs, st, params)
    ensures |floors| + |excluded| == |gs|
    ensures AllFloored(floors, gs, st, params) && AllLeftOut(excluded, gs, params)
    decreases |gs|, 1
  {
    if |gs| > 0 {
      JudgesReadsMore(floors, excluded, gs, st, params);
    }
  }

  lemma {:induction false} JudgesReadsMore(floors: seq<GroupFloor>, excluded: seq<GroupExclusion>, gs: seq<ContentGroup>, st: Standing, params: Params)
    requires Judges(floors, excluded, gs, st, params) && |gs| > 0
    ensures |floors| + |excluded| == |gs|
    ensures AllFloored(floors, gs, st, params) && AllLeftOut(excluded, gs, params)
    decreases |gs|, 0
  {
    hide *;
    var g, front := gs[|gs| - 1], gs[..|gs| - 1];
    assert gs == front + [g];
    JudgesLast(floors, excluded, gs, st, params);
    if InScope(g.size, params) {
      var f, before := floors[|floors| - 1], floors[..|floors| - 1];
      JudgesReads(before, excluded, front, st, params);
      OneMoreFloored(before, f, front, g, st, params);
      NothingLeftOut(excluded, front, g, params);
      assert floors == before + [f];
    } else {
      var x, before := excluded[|excluded| - 1], excluded[..|excluded| - 1];
      JudgesReads(floors, before, front, st, params);
      OneMoreLeftOut(before, x, front, g, params);
      NothingFloored(floors, front, g, st, params);
      assert excluded == before + [x];
    }
  }

  lemma NothingLeftOut(excluded: seq<GroupExclusion>, gs: seq<ContentGroup>, g: ContentGroup, params: Params)
    requires AllLeftOut(excluded, gs, params) && InScope(g.size, params)
    ensures AllLeftOut(excluded, gs + [g], params)
  {
    hide LeftOut, InScope;
  }

  lemma NothingFloored(floors: seq<GroupFloor>, gs: seq<ContentGroup>, g: ContentGroup, st: Standing, params: Params)
    requires AllFloored(floors, gs, st, params) && !InScope(g.size, params)
    ensures AllFloored(floors, gs + [g], st, params)
  {
    hide Floored, InScope;
  }

  lemma LeftOutSnoc(excluded: seq<GroupExclusion>, x: GroupExclusion, g: ContentGroup, params: Params)
    ensures LeftOut(excluded, g, params) ==> LeftOut(excluded + [x], g, params)
    ensures x.hash == g.hash && x.size == g.size
            && x.reason == (if g.size == Some(0) && !params.includeEmpty then EmptyContent else BelowMinSize)
            ==> LeftOut(excluded + [x], g, params)
  {
    assert forall y :: y in excluded + [x] <==> y in excluded || y == x;
  }

  // Sources said to hold the content and with a trusted index, or without; and of unknown presence.
  ghost function HeldTrusted(st: Standing, ps: seq<SourcePresence>): set<int> {
    set p | p in ps && p.presence.Present? && TrustedIndex(st, p.sourceId) :: p.sourceId
  }

  ghost function HeldUntrusted(st: Standing, ps: seq<SourcePresence>): set<int> {
    set p | p in ps && p.presence.Present? && !TrustedIndex(st, p.sourceId) :: p.sourceId
  }

  ghost function Unsure(ps: seq<SourcePresence>): set<int> {
    set p | p in ps && p.presence.Unknown? :: p.sourceId
  }

  lemma SourcesRead(st: Standing, ps: seq<SourcePresence>)
    ensures TrustedSources(st, ps) == HeldTrusted(st, ps)
    ensures UntrustedSources(st, ps) == HeldUntrusted(st, ps)
    ensures UnknownSources(ps) == Unsure(ps)
  {
  }

  // A judged group: its counters are the numbers of those sources, the verdict follows, and
  // each copy carries the standing of its source.
  lemma FloorReads(f: GroupFloor, g: ContentGroup, st: Standing, params: Params)
    requires IsFloor(f, g, st, params)
    ensures f.hash == g.hash && f.size == g.size && f.aliases == g.aliases
    ensures f.trusted == |HeldTrusted(st, g.presence)| && f.untrusted == |HeldUntrusted(st, g.presence)|
    ensures f.unknown == |Unsure(g.presence)| && f.guarded == |HeldTrusted(st, g.presence) * st.guarded|
    ensures f.verdict == MeetsFloor <==> f.trusted >= params.minCopies
    ensures f.verdict == Inconclusive <==> f.trusted < params.minCopies && f.unknown > 0
    ensures f.onlyCopy <==> f.trusted == 1 && f.unknown == 0
    ensures |f.copies| == |g.copies|
    ensures forall k :: 0 <= k < |f.copies| ==>
              && f.copies[k].ref == g.copies[k] && g.copies[k].sourceId in st.status
              && f.copies[k].status == st.status[g.copies[k].sourceId]
              && (f.copies[k].counts <==> TrustedIndex(st, g.copies[k].sourceId))
              && (f.copies[k].guarded <==> g.copies[k].sourceId in st.guarded)
  {
    SourcesRead(st, g.presence);
    hide TrustedSources, UntrustedSources, UnknownSources, HeldTrusted, HeldUntrusted, Unsure;
    assert forall k :: 0 <= k < |g.copies| ==> g.copies[k] in g.copies;
  }

  // ----- main results

  // Trusted sources that really hold the content.
  ghost function TrustedHolders(w: World, cs: set<Catalog>, st: Standing, h: nat): set<int> {
    set id | id in Holders(w, cs, h) && id in st.status && Counts(st.status[id])
  }

  // Sound in every possible world: a floor reported met is met by trusted holders, one
  // reported missed is missed, and an only copy is the only trusted one.
  lemma VerdictSound(w: World, cov: Coverage, cs: set<Catalog>, st: Standing, g: ContentGroup, f: GroupFloor, params: Params)
    requires Identified(cs) && AcceptedUnavailable(cs) && Possible(w, cs) && IsCoverage(cov, cs) && g in cov.groups
    requires IsFloor(f, g, st, params)
    ensures f.verdict == MeetsFloor ==> |TrustedHolders(w, cs, st, g.hash)| >= params.minCopies
    ensures f.verdict == BelowFloor ==> |TrustedHolders(w, cs, st, g.hash)| < params.minCopies
    ensures f.onlyCopy ==> |TrustedHolders(w, cs, st, g.hash)| == 1
  {
    hide Identified, Possible, IsCoverage, AcceptedUnavailable, Holders, TrustedSources, Covers, FloorCopies;
    PresentAreHolders(w, cov, cs, g);
    var trusted, holders := TrustedSources(st, g.presence), TrustedHolders(w, cs, st, g.hash);
    TrustedArePresent(st, g);
    forall id | id in trusted ensures id in holders {
      assert id in Where(g, IsPresent);
      assert id in Holders(w, cs, g.hash);
    }
    SubsetSize(trusted, holders);
    if f.unknown == 0 {
      NoneUnknown(g.presence);
      assert trusted == holders;
    }
  }

  lemma TrustedArePresent(st: Standing, g: ContentGroup)
    ensures forall id :: id in TrustedSources(st, g.presence) <==> id in Where(g, IsPresent) && id in st.status && Counts(st.status[id])
  {
  }

  lemma NoneUnknown(ps: seq<SourcePresence>)
    requires |UnknownSources(ps)| == 0
    ensures !AnyUnknown(ps)
  {
    forall p | p in ps ensures !p.presence.Unknown? {
      assert p.presence.Unknown? ==> p.sourceId in UnknownSources(ps);
    }
  }

  // No world has more trusted holders than the trusted and unknown sources together.
  lemma TrustedHoldersBound(w: World, cov: Coverage, cs: set<Catalog>, st: Standing, g: ContentGroup)
    requires Identified(cs) && Possible(w, cs) && IsCoverage(cov, cs) && g in cov.groups
    ensures |TrustedHolders(w, cs, st, g.hash)| <= |TrustedSources(st, g.presence)| + |UnknownSources(g.presence)|
  {
    hide Identified, IsCoverage, Possible;
    var trusted, unknown := TrustedSources(st, g.presence), UnknownSources(g.presence);
    forall id | id in TrustedHolders(w, cs, st, g.hash) ensures id in trusted + unknown {
      var c :| c in cs && Holds(w, c.info.id, g.hash) && c.info.id == id;
      PresenceOfSource(cov, cs, g, c);
      if PresenceOf(c, g.hash, GroupSize(cs, g.hash)) == Absent { AbsentMeansNone(w, cs, c, g.hash); }
    }
    SubsetSize(TrustedHolders(w, cs, st, g.hash), trusted + unknown);
  }

  // ----- what a verdict leaves open

  ghost function Counting(st: Standing, ids: set<int>): set<int> {
    set id | id in ids && id in st.status && Counts(st.status[id])
  }

  lemma CountingSplits(st: Standing, a: set<int>, b: set<int>)
    requires a !! b
    ensures Counting(st, a + b) == Counting(st, a) + Counting(st, b) && Counting(st, a) !! Counting(st, b)
    ensures |Counting(st, a + b)| == |Counting(st, a)| + |Counting(st, b)|
  {
    assert Counting(st, a + b) == Counting(st, a) + Counting(st, b);
  }

  lemma TrustedAreCounting(w: World, cov: Coverage, cs: set<Catalog>, st: Standing, g: ContentGroup)
    requires IsCoverage(cov, cs) && g in cov.groups
    ensures TrustedHolders(w, cs, st, g.hash) == Counting(st, Holders(w, cs, g.hash))
    ensures TrustedSources(st, g.presence) == Counting(st, SureSources(cs, g.hash))
  {
    PresentAreSure(cov, cs, g);
    TrustedArePresent(st, g);
    hide IsCoverage, Holders, SureSources, TrustedSources, Where;
  }

  // Unknown sources with a trusted status and room for the content at this length.
  ghost function AbleTrusted(cs: set<Catalog>, st: Standing, h: nat, m: nat): set<int> {
    Counting(st, AbleSources(cs, h, m))
  }

  // Exactly these numbers of trusted holders occur in the possible worlds.
  lemma HolderCountsExactly(w: World, cov: Coverage, cs: set<Catalog>, st: Standing, g: ContentGroup, n: nat)
    requires Identified(cs) && AcceptedUnavailable(cs) && Possible(w, cs) && IsCoverage(cov, cs) && g in cov.groups
    ensures (exists v: World :: Possible(v, cs) && |TrustedHolders(v, cs, st, g.hash)| == n) <==>
            exists m: nat :: LengthFits(cs, g.hash, m)
              && 0 <= n - |TrustedSources(st, g.presence)| <= |AbleTrusted(cs, st, g.hash, m)|
  {
    var h := g.hash;
    var sure := SureSources(cs, h);
    hide Identified, AcceptedUnavailable, Possible, IsCoverage, LengthFits, AbleSources, SureSources, Holders;
    hide TrustedHolders, TrustedSources;
    TrustedAreCounting(w, cov, cs, st, g);
    if v: World :| Possible(v, cs) && |TrustedHolders(v, cs, st, h)| == n {
      HoldersWithin(v, cs, h);
      TrustedAreCounting(v, cov, cs, st, g);
      var m, extra := v.length(h), Holders(v, cs, h) - sure;
      assert sure + extra == Holders(v, cs, h);
      CountingSplits(st, sure, extra);
      SubsetSize(Counting(st, extra), AbleTrusted(cs, st, h, m));
    }
    if m: nat :| LengthFits(cs, h, m) && 0 <= n - |TrustedSources(st, g.presence)| <= |AbleTrusted(cs, st, h, m)| {
      var chosen := SubsetOfSize(AbleTrusted(cs, st, h, m), n - |TrustedSources(st, g.presence)|);
      var v := HoldersReach(w, cs, h, m, chosen);
      SureApart(cs, h, m);
      CountingSplits(st, sure, chosen);
      assert Counting(st, chosen) == chosen;
      TrustedAreCounting(v, cov, cs, st, g);
    }
  }

  // The lengths worth trying: the known one; or those of the unexplained rows, and any other.
  ghost function LengthsToTry(cs: set<Catalog>, h: nat): set<nat> {
    var size := GroupSize(cs, h);
    if size.Some? then {size.value}
    else {0} + set i | i in AllItems(cs) && FateOf(i.0.rows, i.1).Unexplained? && TrustedSize(i.1).Some? :: TrustedSize(i.1).value
  }

  // At some length, the trusted sources and the unknown ones that may be trusted are enough.
  ghost predicate InReach(cs: set<Catalog>, st: Standing, h: nat, trusted: nat, floor: nat) {
    exists m :: m in LengthsToTry(cs, h) && trusted + |AbleTrusted(cs, st, h, m)| >= floor
  }

  // No length gives more room than one of those.
  lemma LengthTried(cs: set<Catalog>, h: nat, m: nat) returns (n: nat)
    requires LengthFits(cs, h, m)
    ensures n in LengthsToTry(cs, h) && AbleSources(cs, h, m) <= AbleSources(cs, h, n)
  {
    if m in LengthsToTry(cs, h) {
      n := m;
    } else {
      n := 0;
      forall c | c in cs && Able(cs, c, h, m) ensures Able(cs, c, h, 0) {
        if c.info.evidence == Complete {
          var r :| r in c.rows && Roomy(c, r, m);
          assert (c, r) in AllItems(cs);
          assert Roomy(c, r, 0);
        }
      }
    }
  }

  lemma TriedFits(cs: set<Catalog>, h: nat)
    ensures forall m :: m in LengthsToTry(cs, h) ==> LengthFits(cs, h, m)
    ensures exists m :: m in LengthsToTry(cs, h)
  {
    assert (if GroupSize(cs, h).Some? then GroupSize(cs, h).value else 0) in LengthsToTry(cs, h);
  }

  // Some world reaches the floor exactly when it is in reach.
  lemma ReachExactly(w: World, cov: Coverage, cs: set<Catalog>, st: Standing, g: ContentGroup, floor: nat)
    requires Identified(cs) && AcceptedUnavailable(cs) && Possible(w, cs) && IsCoverage(cov, cs) && g in cov.groups
    ensures (exists v: World :: Possible(v, cs) && |TrustedHolders(v, cs, st, g.hash)| >= floor)
       <==> InReach(cs, st, g.hash, |TrustedSources(st, g.presence)|, floor)
  {
    var h, trusted := g.hash, |TrustedSources(st, g.presence)|;
    hide Identified, AcceptedUnavailable, Possible, IsCoverage, LengthFits, AbleSources, LengthsToTry;
    hide TrustedHolders, TrustedSources;
    if v: World :| Possible(v, cs) && |TrustedHolders(v, cs, st, h)| >= floor {
      HolderCountsExactly(w, cov, cs, st, g, |TrustedHolders(v, cs, st, h)|);
      var m: nat :| LengthFits(cs, h, m)
        && 0 <= |TrustedHolders(v, cs, st, h)| - trusted <= |AbleTrusted(cs, st, h, m)|;
      var n := LengthTried(cs, h, m);
      SubsetSize(AbleTrusted(cs, st, h, m), AbleTrusted(cs, st, h, n));
    }
    if m :| m in LengthsToTry(cs, h) && trusted + |AbleTrusted(cs, st, h, m)| >= floor {
      TriedFits(cs, h);
      var most := trusted + |AbleTrusted(cs, st, h, m)|;
      HolderCountsExactly(w, cov, cs, st, g, most);
    }
  }

  ghost predicate AllMeet(cs: set<Catalog>, st: Standing, h: nat, floor: nat) {
    forall v: World :: Possible(v, cs) ==> |TrustedHolders(v, cs, st, h)| >= floor
  }

  ghost predicate AllMiss(cs: set<Catalog>, st: Standing, h: nat, floor: nat) {
    forall v: World :: Possible(v, cs) ==> |TrustedHolders(v, cs, st, h)| < floor
  }

  // What each verdict is worth, where the evidence is consistent: met is said exactly when
  // every possible world meets the floor; every world misses it exactly when it is out of
  // reach; so an inconclusive floor is really open exactly when it is in reach.
  lemma VerdictExactly(w: World, cov: Coverage, cs: set<Catalog>, st: Standing, g: ContentGroup, f: GroupFloor, params: Params)
    requires Identified(cs) && AcceptedUnavailable(cs) && Possible(w, cs) && IsCoverage(cov, cs) && g in cov.groups
    requires IsFloor(f, g, st, params)
    ensures f.verdict == MeetsFloor <==> AllMeet(cs, st, g.hash, params.minCopies)
    ensures AllMiss(cs, st, g.hash, params.minCopies) <==> !InReach(cs, st, g.hash, f.trusted, params.minCopies)
    ensures f.verdict == Inconclusive ==>
              (!AllMeet(cs, st, g.hash, params.minCopies) && !AllMiss(cs, st, g.hash, params.minCopies)
               <==> InReach(cs, st, g.hash, f.trusted, params.minCopies))
  {
    hide Identified, AcceptedUnavailable, Possible, IsCoverage, LengthFits, AbleTrusted, InReach;
    hide TrustedHolders, TrustedSources, UntrustedSources, UnknownSources, Covers, FloorCopies;
    ReachExactly(w, cov, cs, st, g, params.minCopies);
    HoldersWithin(w, cs, g.hash);
    assert LengthFits(cs, g.hash, w.length(g.hash));
    HolderCountsExactly(w, cov, cs, st, g, f.trusted);
    if f.verdict == MeetsFloor {
      forall v: World | Possible(v, cs) ensures |TrustedHolders(v, cs, st, g.hash)| >= params.minCopies {
        VerdictSound(v, cov, cs, st, g, f, params);
      }
    }
  }

  // With the length known, every unknown source has room, and the number that decides can be
  // read off the report.
  lemma ReachWithKnownSize(cov: Coverage, cs: set<Catalog>, st: Standing, g: ContentGroup, trusted: nat, floor: nat)
    requires IsCoverage(cov, cs) && g in cov.groups && g.size.Some?
    ensures InReach(cs, st, g.hash, trusted, floor) <==>
            trusted + |Counting(st, UnknownSources(g.presence))| >= floor
  {
    var h := g.hash;
    assert IsGroup(g, cs, cov.sources);
    assert GroupSize(cs, h) == g.size;
    hide IsCoverage, GroupSize, Counting;
    assert LengthsToTry(cs, h) == {g.size.value};
    assert AbleSources(cs, h, g.size.value) == UnknownSources(g.presence) by {
      UnknownHaveRoom(cov, cs, g);
    }
  }

  lemma UnknownHaveRoom(cov: Coverage, cs: set<Catalog>, g: ContentGroup)
    requires IsCoverage(cov, cs) && g in cov.groups && GroupSize(cs, g.hash) == g.size && g.size.Some?
    ensures AbleSources(cs, g.hash, g.size.value) == UnknownSources(g.presence)
  {
    hide IsCoverage, PresenceOf, GroupSize, Able;
    var able, unknown := AbleSources(cs, g.hash, g.size.value), UnknownSources(g.presence);
    forall id | id in able ensures id in unknown {
      var c :| c in cs && Able(cs, c, g.hash, g.size.value) && c.info.id == id;
      assert PresenceOf(c, g.hash, GroupSize(cs, g.hash)).Unknown? by { AbleIsUnknown(cs, c, g.hash, g.size.value); }
      PresenceOfSource(cov, cs, g, c);
    }
    forall id | id in unknown ensures id in able {
      var p :| p in g.presence && p.presence.Unknown? && p.sourceId == id;
      var c := PresenceListed(cov, cs, g, p);
      var m := UnknownIsAble(cs, c, g.hash);
    }
  }

  lemma AbleIsUnknown(cs: set<Catalog>, c: Catalog, h: nat, m: nat)
    requires Able(cs, c, h, m)
    ensures PresenceOf(c, h, GroupSize(cs, h)).Unknown?
  {
  }

  // ----- an inconclusive floor that is not open

  // One untrusted copy, and one trusted source that is not complete.
  ghost function LoneCopy(h: nat): set<Catalog> {
    {Catalog(SourceInfo(1, "", Complete), {CopyRow(h)}), Catalog(SourceInfo(2, "", Incomplete), {})}
  }

  function CopyRow(h: nat): Row {
    Row(1, [97], File, Some(1), Some(h), false, false, false, false)
  }

  function LoneStanding(): Standing {
    Standing(map[1 := StaleIndex, 2 := IncompleteIndex], {})
  }

  function LoneGroup(h: nat): ContentGroup {
    ContentGroup(h, Some(1), AtLeast(1), [SourcePresence(1, Present(1)), SourcePresence(2, Unknown(SourceIncomplete))],
                 [RowRef(1, [97], 1)], [])
  }

  function LoneCoverage(h: nat): Coverage {
    Coverage([SourceInfo(1, "", Complete), SourceInfo(2, "", Incomplete)], [LoneGroup(h)], [], [])
  }

  lemma LoneRow(h: nat)
    ensures FateOf({CopyRow(h)}, CopyRow(h)) == Copy(h) && IsCopy({CopyRow(h)}, CopyRow(h), h)
    ensures TrustedSize(CopyRow(h)) == Some(1) && CopyRow(h).path == [97] && CopyRow(h).fileId == 1
  {
  }

  lemma LoneItems(h: nat)
    ensures var c := Catalog(SourceInfo(1, "", Complete), {CopyRow(h)});
            AllItems(LoneCopy(h)) == {(c, CopyRow(h))}
  {
    var c, d := Catalog(SourceInfo(1, "", Complete), {CopyRow(h)}), Catalog(SourceInfo(2, "", Incomplete), {});
    forall i ensures i in AllItems(LoneCopy(h)) <==> i == (c, CopyRow(h)) {
      if i in AllItems(LoneCopy(h)) { assert i.0 == c || i.0 == d; }
    }
  }

  lemma LoneCounts(h: nat)
    ensures CountReplicas(LoneGroup(h).presence) == AtLeast(1)
  {
    var ps := LoneGroup(h).presence;
    assert ps[1] in ps && ps[1].presence.Unknown?;
    assert ps[..1] == [ps[0]] && [ps[0]][..0] == [];
    assert PresentCount([]) == 0;
    assert PresentCount([ps[0]]) == 1;
  }

  lemma LoneIsGroup(h: nat)
    ensures IsGroup(LoneGroup(h), LoneCopy(h), LoneCoverage(h).sources)
    ensures HashesOf(AllItems(LoneCopy(h))) == {h} && UnknownsOf(AllItems(LoneCopy(h))) == {}
    ensures ExclusionsOf(AllItems(LoneCopy(h))) == {}
  {
    var cs, g := LoneCopy(h), LoneGroup(h);
    var c, d := Catalog(SourceInfo(1, "", Complete), {CopyRow(h)}), Catalog(SourceInfo(2, "", Incomplete), {});
    LoneItems(h);
    LoneRow(h);
    hide FateOf, AllItems, IsCopy, CopyRow;
    assert SizesOf(AllItems(cs), h) == {1};
    assert CopiesIn(c, h) == {CopyRow(h)};
    assert CopiesIn(d, h) == {};
    LoneCounts(h);
    assert Refs(AllItems(cs), Copy(h)) == {RowRef(1, [97], 1)};
    assert Refs(AllItems(cs), Alias(h)) == {};
  }

  lemma LoneIsCoverage(h: nat)
    ensures IsCoverage(LoneCoverage(h), LoneCopy(h))
  {
    LoneIsGroup(h);
    hide IsGroup, HashesOf, UnknownsOf, ExclusionsOf, AllItems, LoneGroup, CopyRow;
    assert LoneGroup(h).hash == h by { LoneHash(h); }
    assert LoneGroup(h) in LoneCoverage(h).groups;
  }

  lemma LoneHash(h: nat)
    ensures LoneGroup(h).hash == h && LoneGroup(h).size == Some(1)
  {
  }

  ghost function LoneWorld(h: nat): World {
    World((x: nat) => 1, map[1 := map[Observed(1) := h], 2 := map[]])
  }

  lemma LoneIsPossible(h: nat)
    ensures Possible(LoneWorld(h), LoneCopy(h))
  {
    LoneRow(h);
    hide IsCopy, Shadowed;
    var c := Catalog(SourceInfo(1, "", Complete), {CopyRow(h)});
    assert forall g :: IsCopy(c.rows, CopyRow(h), g) ==> g == h by { CopyOfOne(c.rows, CopyRow(h), h); }
    assert EffectiveFile(c.rows, CopyRow(h));
    assert Respects(LoneWorld(h), c);
  }

  lemma CopyOfOne(rows: set<Row>, r: Row, h: nat)
    requires IsCopy(rows, r, h)
    ensures EffectiveFile(rows, r) && forall g :: IsCopy(rows, r, g) ==> g == h
  {
  }

  lemma LoneIsIdentified(h: nat)
    ensures Identified(LoneCopy(h)) && AcceptedUnavailable(LoneCopy(h))
  {
  }

  lemma LoneSources(h: nat)
    ensures TrustedSources(LoneStanding(), LoneGroup(h).presence) == {}
    ensures UntrustedSources(LoneStanding(), LoneGroup(h).presence) == {1}
    ensures UnknownSources(LoneGroup(h).presence) == {2}
  {
    var ps := LoneGroup(h).presence;
    assert forall p :: p in ps <==> p == ps[0] || p == ps[1];
  }

  // For every floor of two or more there is an inconclusive group that no possible world
  // brings up to its floor, though the evidence is consistent.
  lemma VerdictNotTight(h: nat, params: Params) returns (f: GroupFloor)
    requires params.minCopies >= 2
    ensures IsCoverage(LoneCoverage(h), LoneCopy(h)) && LoneGroup(h) in LoneCoverage(h).groups
    ensures Possible(LoneWorld(h), LoneCopy(h)) && Identified(LoneCopy(h)) && AcceptedUnavailable(LoneCopy(h))
    ensures IsFloor(f, LoneGroup(h), LoneStanding(), params)
    ensures f.verdict == Inconclusive && f.trusted == 0 && f.unknown == 1
    ensures AllMiss(LoneCopy(h), LoneStanding(), h, params.minCopies)
  {
    var st, g := LoneStanding(), LoneGroup(h);
    LoneIsCoverage(h);
    LoneIsPossible(h);
    LoneIsIdentified(h);
    LoneSources(h);
    hide IsCoverage, Possible, Identified, AcceptedUnavailable, LoneCopy, InReach, TrustedSources, UntrustedSources, UnknownSources;
    f := GroupFloor(h, Some(1), Inconclusive, false, 0, 1, 0, 1, FloorCopies(st, g.copies), []);
    ReachWithKnownSize(LoneCoverage(h), LoneCopy(h), st, g, 0, params.minCopies);
    SubsetSize(Counting(st, {2}), {2});
    VerdictExactly(LoneWorld(h), LoneCoverage(h), LoneCopy(h), st, g, f, params);
  }

  lemma {:induction false} VerdictsPartition(fs: seq<GroupFloor>)
    ensures var s := SummaryOf(fs); s.meetsFloor + s.belowFloor + s.inconclusive == |fs|
  {
    if |fs| > 0 { VerdictsPartition(fs[..|fs| - 1]); }
  }
}
