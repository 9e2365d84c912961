/**
 The plan document and what each canonicalization pass makes of it (src/core/plan.rs).

 Every function here is total; what makes a pass fail is a predicate of its own, and
 `Canonicalize` puts the two together. The passes as the source writes them, loops over a
 document they change in place, are in PlanPasses and are proved against these functions.
 */
module PlanDoc {
  import opened Basics
  import opened Order
  import opened Hex
  import opened Names
  import opened Framing
  import opened Permute
  import opened Contest

  type Digest = d: seq<byte> | |d| == 32 witness seq(32, i => 0)

  // Lossy text rendering and BLAKE3, both uninterpreted.
  datatype Env = Env(lossy: seq<byte> -> Text, blake3: seq<byte> -> Digest)

  // ----- the document

  datatype RootRole = SourceRole | DestinationRole | QuarantineRole

  datatype SourceType = Tar | Dir

  datatype Fingerprint = ArchiveBlake3(value: Text, size: nat, mtime: Option<int>) | NoFingerprint

  datatype SourceBinding = SourceBinding(indexLabel: Text, indexUuid: Text, filesIndexed: nat, sourceType: SourceType,
                                         fingerprint: Fingerprint)

  datatype Root = Root(rootId: nat, role: RootRole, pathDisplay: Text, pathRaw: Text, source: Option<SourceBinding>)

  datatype Conflict = NoConflict | SuffixOrdinal(ordinal: nat, competing: seq<EntryKey>)

  datatype SourceRef = SourceRef(root: nat, file: int, parts: seq<Text>, display: Text, hash: Text, size: nat,
                                 mtime: Option<int>)

  datatype DestPath = DestPath(root: nat, parts: seq<Text>, display: Text)

  datatype Op =
    | Mkdir(dest: DestPath)
    | Move(dest: DestPath, source: SourceRef, conflict: Conflict)
    | Extract(dest: DestPath, source: SourceRef, conflict: Conflict)
    | Quarantine(dest: DestPath, source: SourceRef, groupId: Text, slot: Text)

  datatype Action = Action(actionId: Text, ordinal: nat, op: Op)

  datatype MatchKind = Exact | Near

  datatype Disposition = Keep | Quarantined | Leave

  datatype GroupMember = GroupMember(entry: SourceRef, disposition: Disposition, reason: Text, actionable: bool,
                                     hamming: Option<nat>, shadowed: bool, sparse: bool)

  datatype ReplicaFloor = ReplicaFloor(required: nat, observed: nat, remainingAfter: nat)

  datatype Group = Group(groupId: Text, matchKind: MatchKind, maxDistance: nat, keeper: SourceRef, keepReason: Text,
                         members: seq<GroupMember>, floor: ReplicaFloor, reclaimable: nat, reviewOnly: nat)

  datatype Excluded = Excluded(root: nat, file: int, parts: seq<Text>, display: Text, hash: Option<Text>, size: nat,
                               mtime: Option<int>, reason: Text)

  datatype OpCount = OpCount(op: Text, count: nat)

  datatype Summary = Summary(actionsTotal: nat, actionsByOp: seq<OpCount>, bytesAffected: nat, groupsTotal: nat,
                             excludedTotal: nat, excludedBytes: nat, rootsWritten: seq<nat>)

  datatype PlanKind = Organizing | Extracting | Deduping

  datatype Doc = Doc(kind: PlanKind, roots: seq<Root>, actions: seq<Action>, groups: seq<Group>,
                     excluded: seq<Excluded>, summary: Summary)

  // ----- paths

  // Only ever asked about text that has been checked to be lowercase hex.
  function Bytes(t: Text): seq<byte> {
    if Unhex(t).Ok? then Unhex(t).value else []
  }

  predicate AllHex(parts: seq<Text>) {
    forall i :: 0 <= i < |parts| ==> IsHex(parts[i])
  }

  function Joined(parts: seq<Text>): seq<byte> {
    if parts == [] then []
    else if |parts| == 1 then Bytes(parts[0])
    else Bytes(parts[0]) + [SLASH] + Joined(parts[1..])
  }

  function Shown(env: Env, parts: seq<Text>): Text {
    env.lossy(Joined(parts))
  }

  function KeyOf(s: SourceRef): EntryKey {
    EntryKey(s.root, s.file)
  }

  // ----- roots

  function RoleRank(role: RootRole): int {
    match role
    case SourceRole => 0
    case DestinationRole => 1
    case QuarantineRole => 2
  }

  function RootKey(r: Root): Key {
    Key(RoleRank(r.role), 0, Bytes(r.pathRaw), 0, 0)
  }

  function SortedRoots(roots: seq<Root>): seq<Root> {
    SortBy(roots, RootKey)
  }

  // Position of the root carrying this id; an id no root carries would be passed through.
  function NewId(ordered: seq<Root>, id: nat): nat {
    if ordered == [] then id
    else if ordered[|ordered| - 1].rootId == id then |ordered| - 1
    else NewId(ordered[..|ordered| - 1], id)
  }

  function RemapSource(s: SourceRef, ordered: seq<Root>): SourceRef {
    s.(root := NewId(ordered, s.root))
  }

  function RemapDest(d: DestPath, ordered: seq<Root>): DestPath {
    d.(root := NewId(ordered, d.root))
  }

  function RemapOp(op: Op, ordered: seq<Root>): Op {
    match op
    case Mkdir(d) => Mkdir(RemapDest(d, ordered))
    case Move(d, s, c) => Move(RemapDest(d, ordered), RemapSource(s, ordered), c)
    case Extract(d, s, c) => Extract(RemapDest(d, ordered), RemapSource(s, ordered), c)
    case Quarantine(d, s, g, t) => Quarantine(RemapDest(d, ordered), RemapSource(s, ordered), g, t)
  }

  function RemapAction(ordered: seq<Root>): Action -> Action {
    (a: Action) => a.(op := RemapOp(a.op, ordered))
  }

  function RemapMember(ordered: seq<Root>): GroupMember -> GroupMember {
    (m: GroupMember) => m.(entry := RemapSource(m.entry, ordered))
  }

  function RemapGroup(ordered: seq<Root>): Group -> Group {
    (g: Group) => g.(keeper := RemapSource(g.keeper, ordered), members := Mapped(g.members, RemapMember(ordered)))
  }

  function RemapExcluded(ordered: seq<Root>): Excluded -> Excluded {
    (e: Excluded) => e.(root := NewId(ordered, e.root))
  }

  function Renumbered(env: Env, ordered: seq<Root>): (r: seq<Root>)
    ensures |r| == |ordered|
  {
    seq(|ordered|, i requires 0 <= i < |ordered| =>
      ordered[i].(rootId := i, pathDisplay := env.lossy(Bytes(ordered[i].pathRaw))))
  }

  function RootPass(env: Env, d: Doc): Doc {
    var ordered := SortedRoots(d.roots);
    d.(roots := Renumbered(env, ordered),
       actions := Mapped(d.actions, RemapAction(ordered)),
       groups := Mapped(d.groups, RemapGroup(ordered)),
       excluded := Mapped(d.excluded, RemapExcluded(ordered)))
  }

  predicate HasRoot(roots: seq<Root>, id: nat) {
    exists i :: 0 <= i < |roots| && roots[i].rootId == id
  }

  predicate OpKnown(roots: seq<Root>, op: Op) {
    HasRoot(roots, op.dest.root) && (op.Mkdir? || HasRoot(roots, op.source.root))
  }

  predicate GroupKnown(roots: seq<Root>, g: Group) {
    HasRoot(roots, g.keeper.root)
    && forall k :: 0 <= k < |g.members| ==> HasRoot(roots, g.members[k].entry.root)
  }

  ghost predicate RefsKnown(d: Doc) {
    && (forall i :: 0 <= i < |d.actions| ==> OpKnown(d.roots, d.actions[i].op))
    && (forall i :: 0 <= i < |d.groups| ==> GroupKnown(d.roots, d.groups[i]))
    && (forall i :: 0 <= i < |d.excluded| ==> HasRoot(d.roots, d.excluded[i].root))
  }

  ghost predicate IdsDistinct(roots: seq<Root>) {
    forall i, j :: 0 <= i < j < |roots| ==> roots[i].rootId != roots[j].rootId
  }

  ghost predicate RootsHex(roots: seq<Root>) {
    forall i :: 0 <= i < |roots| ==> IsHex(roots[i].pathRaw)
  }

  ghost predicate RootsOk(d: Doc) {
    IdsDistinct(d.roots) && RefsKnown(d) && RootsHex(d.roots)
  }

  // ----- destination conflicts

  predicate Contends(op: Op) {
    op.Move? || op.Extract?
  }

  function PriorOrdinal(c: Conflict): nat {
    if c.NoConflict? then 0 else c.ordinal
  }

  predicate Suffixable(parts: seq<Text>) {
    parts != [] && IsHex(parts[|parts| - 1])
  }

  function WithSuffix(parts: seq<Text>, n: nat): seq<Text>
    requires Suffixable(parts)
  {
    parts[..|parts| - 1] + [ToHex(AddSuffix(Decode(parts[|parts| - 1]), n))]
  }

  // The recorded suffix can be taken off again.
  predicate BaseOk(parts: seq<Text>, prior: Conflict) {
    PriorOrdinal(prior) == 0
    || (Suffixable(parts) && StripSuffix(Decode(parts[|parts| - 1]), PriorOrdinal(prior)).Some?)
  }

  function Base(parts: seq<Text>, prior: Conflict): seq<Text> {
    if PriorOrdinal(prior) == 0 || !BaseOk(parts, prior) then parts
    else parts[..|parts| - 1] + [ToHex(StripSuffix(Decode(parts[|parts| - 1]), PriorOrdinal(prior)).value)]
  }

  function RankKey(s: SourceRef): Key {
    Key(0, s.root, Joined(s.parts), s.file, 0)
  }

  function EntrantOf(a: Action): Option<Entrant> {
    if Contends(a.op)
    then Some(Entrant(Label(a.op.dest.root, Base(a.op.dest.parts, a.op.conflict)), RankKey(a.op.source), KeyOf(a.op.source)))
    else None
  }

  function EntrantsOf(actions: seq<Action>): Entrants {
    Mapped(actions, EntrantOf)
  }

  function SetConflict(op: Op, c: Conflict): Op
    requires Contends(op)
  {
    if op.Move? then Move(op.dest, op.source, c) else Extract(op.dest, op.source, c)
  }

  function SetDestParts(op: Op, parts: seq<Text>): Op
    requires Contends(op)
  {
    var dest := op.dest.(parts := parts);
    if op.Move? then Move(dest, op.source, op.conflict) else Extract(dest, op.source, op.conflict)
  }

  // Rank 0 keeps the plain name.
  function NameAt(base: seq<Text>, rank: nat): seq<Text> {
    if rank == 0 || !Suffixable(base) then base else WithSuffix(base, rank)
  }

  // An action alone on its base loses its conflict note but keeps the name it has.
  ghost function Settled(actions: seq<Action>, i: nat): Action
    requires i < |actions|
  {
    var a, es := actions[i], EntrantsOf(actions);
    if !Contends(a.op) then a
    else if |Crowd(es, i)| == 1 then a.(op := SetConflict(a.op, NoConflict))
    else
      var parts := NameAt(Base(a.op.dest.parts, a.op.conflict), Rank(es, i));
      a.(op := SetConflict(SetDestParts(a.op, parts), SuffixOrdinal(Rank(es, i), Competing(es, i))))
  }

  ghost function ConflictPass(actions: seq<Action>): (r: seq<Action>)
    ensures |r| == |actions|
  {
    seq(|actions|, i requires 0 <= i < |actions| => Settled(actions, i))
  }

  predicate EntrantOk(op: Op) {
    Contends(op) ==> BaseOk(op.dest.parts, op.conflict) && AllHex(op.source.parts)
  }

  ghost predicate SuffixesOk(actions: seq<Action>, i: nat)
    requires i < |actions|
  {
    Contends(actions[i].op) && |Crowd(EntrantsOf(actions), i)| != 1
    ==> Suffixable(Base(actions[i].op.dest.parts, actions[i].op.conflict))
  }

  ghost predicate ConflictsOk(actions: seq<Action>) {
    && (forall i :: 0 <= i < |actions| ==> EntrantOk(actions[i].op))
    && (forall i :: 0 <= i < |actions| ==> SuffixesOk(actions, i))
  }

  // ----- display fields

  function ShowSource(env: Env, s: SourceRef): SourceRef {
    s.(display := Shown(env, s.parts))
  }

  function ShowDest(env: Env, d: DestPath): DestPath {
    d.(display := Shown(env, d.parts))
  }

  function ShowAction(env: Env): Action -> Action {
    (a: Action) => a.(op := match a.op
      case Mkdir(d) => Mkdir(ShowDest(env, d))
      case Move(d, s, c) => Move(ShowDest(env, d), ShowSource(env, s), c)
      case Extract(d, s, c) => Extract(ShowDest(env, d), ShowSource(env, s), c)
      case Quarantine(d, s, g, t) => Quarantine(ShowDest(env, d), ShowSource(env, s), g, t))
  }

  function ShowMember(env: Env): GroupMember -> GroupMember {
    (m: GroupMember) => m.(entry := ShowSource(env, m.entry))
  }

  function ShowGroup(env: Env): Group -> Group {
    (g: Group) => g.(keeper := ShowSource(env, g.keeper), members := Mapped(g.members, ShowMember(env)))
  }

  function ShowExcluded(env: Env): Excluded -> Excluded {
    (e: Excluded) => e.(display := Shown(env, e.parts))
  }

  function DisplayPass(env: Env, d: Doc): Doc {
    d.(actions := Mapped(d.actions, ShowAction(env)),
       groups := Mapped(d.groups, ShowGroup(env)),
       excluded := Mapped(d.excluded, ShowExcluded(env)))
  }

  predicate OpHex(op: Op) {
    AllHex(op.dest.parts) && (op.Mkdir? || AllHex(op.source.parts))
  }

  predicate GroupHex(g: Group) {
    AllHex(g.keeper.parts) && forall k :: 0 <= k < |g.members| ==> AllHex(g.members[k].entry.parts)
  }

  ghost predicate DisplayOk(d: Doc) {
    && (forall i :: 0 <= i < |d.actions| ==> OpHex(d.actions[i].op))
    && (forall i :: 0 <= i < |d.groups| ==> GroupHex(d.groups[i]))
    && (forall i :: 0 <= i < |d.excluded| ==> AllHex(d.excluded[i].parts))
  }

  // ----- derived ids

  function Tag(op: Op): Text {
    match op
    case Mkdir(_) => Ascii("mkdir")
    case Move(_, _, _) => Ascii("move")
    case Extract(_, _, _) => Ascii("extract")
    case Quarantine(_, _, _, _) => Ascii("quarantine")
  }

  function DomainAction(): seq<byte> {
    Ascii("backupsage.plan.v1.action\0")
  }

  function DomainGroup(): seq<byte> {
    Ascii("backupsage.plan.v1.group\0")
  }

  function DomainSlot(): seq<byte> {
    Ascii("backupsage.plan.v1.slot\0")
  }

  function EntryElements(s: SourceRef): seq<seq<byte>> {
    [Le8(s.root), Le8Signed(s.file)]
  }

  function ActionElements(op: Op): seq<seq<byte>> {
    [Tag(op), Le8(op.dest.root)] + Mapped(op.dest.parts, Bytes)
    + (if op.Mkdir? then [] else EntryElements(op.source) + [op.source.hash])
    + (if op.Quarantine? then [op.groupId, op.slot] else [])
  }

  function MemberElements(members: seq<GroupMember>): seq<seq<byte>> {
    if members == [] then [] else EntryElements(members[0].entry) + MemberElements(members[1..])
  }

  function KindName(kind: MatchKind): Text {
    if kind.Exact? then Ascii("exact") else Ascii("near")
  }

  function GroupElements(g: Group): seq<seq<byte>> {
    [KindName(g.matchKind)] + EntryElements(g.keeper) + MemberElements(g.members)
  }

  function SlotElements(groupId: Text, s: SourceRef): seq<seq<byte>> {
    [groupId] + EntryElements(s) + [s.hash]
  }

  function ActionId(env: Env, op: Op): Text {
    ToHex(env.blake3(DomainAction() + Framed(ActionElements(op)))[..16])
  }

  function GroupId(env: Env, g: Group): Text {
    ToHex(env.blake3(DomainGroup() + Framed(GroupElements(g)))[..8])
  }

  function Slot(env: Env, groupId: Text, s: SourceRef): Text {
    ToHex(env.blake3(DomainSlot() + Framed(SlotElements(groupId, s)))[..4])
  }

  // ----- groups

  function MemberKey(m: GroupMember): Key {
    Key(0, m.entry.root, [], m.entry.file, 0)
  }

  function KeeperKey(g: Group): Key {
    Key(0, g.keeper.root, [], g.keeper.file, 0)
  }

  function SortMembers(g: Group): Group {
    g.(members := SortBy(g.members, MemberKey))
  }

  function RemainingRoots(g: Group): set<nat> {
    {g.keeper.root} + set m | m in g.members && m.disposition != Quarantined :: m.entry.root
  }

  function StampGroup(env: Env): Group -> Group {
    (g: Group) => g.(groupId := GroupId(env, g), floor := g.floor.(remainingAfter := |RemainingRoots(g)|))
  }

  function GroupPass(env: Env, groups: seq<Group>): seq<Group> {
    Mapped(SortBy(Mapped(groups, SortMembers), KeeperKey), StampGroup(env))
  }

  // ----- actions

  function StampSlot(env: Env): Action -> Action {
    (a: Action) =>
      if a.op.Quarantine? then a.(op := a.op.(slot := Slot(env, a.op.groupId, a.op.source))) else a
  }

  function ActionKey(a: Action): Key {
    match a.op
    case Mkdir(d) => Key(0, d.root, Joined(d.parts), 0, 0)
    case Move(_, s, _) => Key(1, s.root, Joined(s.parts), s.file, 0)
    case Extract(_, s, _) => Key(1, s.root, [], s.file, 0)
    case Quarantine(_, s, g, _) => Key(1, s.root, g + Joined(s.parts), s.file, 0)
  }

  function StampId(env: Env, a: Action, ordinal: nat): Action {
    a.(actionId := ActionId(env, a.op), ordinal := ordinal)
  }

  function Stamped(env: Env, actions: seq<Action>): (r: seq<Action>)
    ensures |r| == |actions|
  {
    seq(|actions|, i requires 0 <= i < |actions| => StampId(env, actions[i], i))
  }

  function ActionPass(env: Env, actions: seq<Action>): seq<Action> {
    Stamped(env, SortBy(Mapped(actions, StampSlot(env)), ActionKey))
  }

  // ----- excluded entries and totals

  function ExcludedKey(e: Excluded): Key {
    Key(0, e.root, [], e.file, 0)
  }

  function CountTag(actions: seq<Action>, tag: Text): nat {
    if actions == [] then 0
    else CountTag(actions[..|actions| - 1], tag) + if Tag(actions[|actions| - 1].op) == tag then 1 else 0
  }

  // In byte order of the tags; an operation that does not occur has no line.
  function TagCounts(actions: seq<Action>, tags: seq<Text>): seq<OpCount> {
    if tags == [] then []
    else
      var n := CountTag(actions, tags[0]);
      (if n == 0 then [] else [OpCount(tags[0], n)]) + TagCounts(actions, tags[1..])
  }

  function AllTags(): seq<Text> {
    [Ascii("extract"), Ascii("mkdir"), Ascii("move"), Ascii("quarantine")]
  }

  function ActionBytes(actions: seq<Action>): nat {
    if actions == [] then 0
    else
      var last := actions[|actions| - 1];
      ActionBytes(actions[..|actions| - 1]) + if last.op.Mkdir? then 0 else last.op.source.size
  }

  function ExcludedBytes(excluded: seq<Excluded>): nat {
    if excluded == [] then 0
    else ExcludedBytes(excluded[..|excluded| - 1]) + excluded[|excluded| - 1].size
  }

  // An ascending list with n added where it belongs, unless it is there.
  function AddOrdered(s: seq<nat>, n: nat): seq<nat> {
    if s == [] then [n]
    else if n < s[0] then [n] + s
    else if n == s[0] then s
    else [s[0]] + AddOrdered(s[1..], n)
  }

  function RootsWritten(actions: seq<Action>): seq<nat> {
    if actions == [] then []
    else AddOrdered(RootsWritten(actions[..|actions| - 1]), actions[|actions| - 1].op.dest.root)
  }

  function SummaryOf(actions: seq<Action>, groups: seq<Group>, excluded: seq<Excluded>): Summary {
    Summary(|actions|, TagCounts(actions, AllTags()), ActionBytes(actions), |groups|, |excluded|,
            ExcludedBytes(excluded), RootsWritten(actions))
  }

  // ----- the whole pass

  // Roots settled, then conflicts, then display texts.
  ghost function Shaped(env: Env, d: Doc): Doc {
    var r := RootPass(env, d);
    DisplayPass(env, r.(actions := ConflictPass(r.actions)))
  }

  ghost predicate Shapeable(env: Env, d: Doc) {
    && RootsOk(d)
    && var r := RootPass(env, d);
       && ConflictsOk(r.actions)
       && DisplayOk(r.(actions := ConflictPass(r.actions)))
  }

  ghost function Finished(env: Env, d: Doc): Doc {
    var actions := ActionPass(env, d.actions);
    var groups := GroupPass(env, d.groups);
    var excluded := SortBy(d.excluded, ExcludedKey);
    d.(actions := actions, groups := groups, excluded := excluded, summary := SummaryOf(actions, groups, excluded))
  }

  ghost function Canonical(env: Env, d: Doc): Doc {
    Finished(env, Shaped(env, d))
  }

  ghost function Canonicalize(env: Env, d: Doc): Result<Doc> {
    if Shapeable(env, d) then Ok(Canonical(env, d)) else Err
  }

  // The load-time check: canonicalizing changes nothing.
  ghost predicate Verified(env: Env, d: Doc) {
    Canonicalize(env, d) == Ok(d)
  }
}
