/**
 What the derived ids of a plan identify (src/core/plan.rs): equal preimages force equal
 identity facts, although the number of destination components varies, and the three kinds
 of preimage never meet.
 */
module PlanIds {
  import opened Basics
  import opened Order
  import opened Hex
  import opened Framing
  import opened Permute
  import opened Contest
  import opened PlanDoc

  datatype SourceFacts = SourceFacts(entry: EntryKey, hash: Text)

  // The facts an action id stands for.
  datatype Identity = Identity(tag: Text, root: nat, parts: seq<Text>, source: Option<SourceFacts>,
                               membership: Option<(Text, Text)>)

  function IdentityOf(op: Op): Identity {
    Identity(Tag(op), op.dest.root, op.dest.parts,
             if op.Mkdir? then None else Some(SourceFacts(KeyOf(op.source), op.source.hash)),
             if op.Quarantine? then Some((op.groupId, op.slot)) else None)
  }

  // Numbers fit the source's integer widths and every string is shorter than 2^64 bytes.
  ghost predicate Sized(s: SourceRef) {
    s.root < TWO_64 && IsInt64(s.file)
  }

  ghost predicate SizedOp(op: Op) {
    op.dest.root < TWO_64 && AllHex(op.dest.parts) && (!op.Mkdir? ==> Sized(op.source))
    && Framable(ActionElements(op))
  }

  ghost predicate SizedGroup(g: Group) {
    Sized(g.keeper) && (forall k :: 0 <= k < |g.members| ==> Sized(g.members[k].entry))
    && Framable(GroupElements(g))
  }

  ghost predicate SizedSlot(groupId: Text, s: SourceRef) {
    Sized(s) && Framable(SlotElements(groupId, s))
  }

  function ActionPreimage(op: Op): seq<byte> {
    DomainAction() + Framed(ActionElements(op))
  }

  function GroupPreimage(g: Group): seq<byte> {
    DomainGroup() + Framed(GroupElements(g))
  }

  function SlotPreimage(groupId: Text, s: SourceRef): seq<byte> {
    DomainSlot() + Framed(SlotElements(groupId, s))
  }

  lemma SamePayload(domain: seq<byte>, a: seq<seq<byte>>, b: seq<seq<byte>>)
    requires Framable(a) && Framable(b) && domain + Framed(a) == domain + Framed(b)
    ensures a == b
  {
    var n := |domain|;
    assert (domain + Framed(a))[n..] == Framed(a) && (domain + Framed(b))[n..] == Framed(b);
    FramedInjective(a, b);
  }

  lemma SameEntry(s: SourceRef, t: SourceRef)
    requires Sized(s) && Sized(t) && EntryElements(s) == EntryElements(t)
    ensures KeyOf(s) == KeyOf(t)
  {
    assert EntryElements(s)[0] == EntryElements(t)[0] && EntryElements(s)[1] == EntryElements(t)[1];
    Le8Injective(s.root, t.root);
    Le8SignedInjective(s.file, t.file);
  }

  lemma SameParts(a: seq<Text>, b: seq<Text>)
    requires AllHex(a) && AllHex(b) && Mapped(a, Bytes) == Mapped(b, Bytes)
    ensures a == b
  {
    assert |Mapped(a, Bytes)| == |a| && |Mapped(b, Bytes)| == |b|;
    forall i | 0 <= i < |a| ensures a[i] == b[i] {
      assert Mapped(a, Bytes)[i] == Mapped(b, Bytes)[i];
      DecodeInjective(a[i], b[i]);
    }
  }

  lemma TagsDiffer(a: Op, b: Op)
    requires Tag(a) == Tag(b)
    ensures a.Mkdir? == b.Mkdir? && a.Move? == b.Move? && a.Extract? == b.Extract? && a.Quarantine? == b.Quarantine?
  {
    assert |Tag(a)| == |Tag(b)|;
  }

  function SourceTail(op: Op): seq<seq<byte>> {
    (if op.Mkdir? then [] else EntryElements(op.source) + [op.source.hash])
    + (if op.Quarantine? then [op.groupId, op.slot] else [])
  }

  // The tag fixes how many elements follow the components, so they are where they seem to be.
  lemma SplitElements(a: Op, b: Op)
    requires ActionElements(a) == ActionElements(b)
    ensures Tag(a) == Tag(b) && Le8(a.dest.root) == Le8(b.dest.root)
    ensures Mapped(a.dest.parts, Bytes) == Mapped(b.dest.parts, Bytes) && SourceTail(a) == SourceTail(b)
  {
    var e, f := ActionElements(a), ActionElements(b);
    assert e[0] == f[0];
    assert e[1] == f[1];
    TagsDiffer(a, b);
    assert |SourceTail(a)| == |SourceTail(b)|;
    var n := |e| - |SourceTail(a)|;
    assert e[2..n] == Mapped(a.dest.parts, Bytes) && f[2..n] == Mapped(b.dest.parts, Bytes);
    assert e[n..] == SourceTail(a) && f[n..] == SourceTail(b);
  }

  lemma SameTail(a: Op, b: Op)
    requires SizedOp(a) && SizedOp(b) && Tag(a) == Tag(b) && SourceTail(a) == SourceTail(b)
    ensures IdentityOf(a).source == IdentityOf(b).source && IdentityOf(a).membership == IdentityOf(b).membership
  {
    TagsDiffer(a, b);
    var s, t := SourceTail(a), SourceTail(b);
    if !a.Mkdir? {
      assert s[..2] == EntryElements(a.source) && t[..2] == EntryElements(b.source);
      SameEntry(a.source, b.source);
      assert s[2] == t[2];
    }
    if a.Quarantine? {
      assert s[3] == t[3] && s[4] == t[4];
    }
  }

  lemma ActionPreimageInjective(a: Op, b: Op)
    requires SizedOp(a) && SizedOp(b) && ActionPreimage(a) == ActionPreimage(b)
    ensures IdentityOf(a) == IdentityOf(b)
  {
    hide Tag, ActionElements, SourceTail;
    SamePayload(DomainAction(), ActionElements(a), ActionElements(b));
    SplitElements(a, b);
    Le8Injective(a.dest.root, b.dest.root);
    SameParts(a.dest.parts, b.dest.parts);
    SameTail(a, b);
  }

  function MemberKeys(members: seq<GroupMember>): seq<EntryKey> {
    if members == [] then [] else [KeyOf(members[0].entry)] + MemberKeys(members[1..])
  }

  lemma {:induction false} SameMembers(a: seq<GroupMember>, b: seq<GroupMember>)
    requires forall k :: 0 <= k < |a| ==> Sized(a[k].entry)
    requires forall k :: 0 <= k < |b| ==> Sized(b[k].entry)
    requires MemberElements(a) == MemberElements(b)
    ensures MemberKeys(a) == MemberKeys(b)
  {
    var e, f := MemberElements(a), MemberElements(b);
    if a != [] {
      assert |e| >= 2;
      assert b != [];
      assert e[..2] == EntryElements(a[0].entry) && f[..2] == EntryElements(b[0].entry);
      assert e[2..] == MemberElements(a[1..]) && f[2..] == MemberElements(b[1..]);
      SameEntry(a[0].entry, b[0].entry);
      SameMembers(a[1..], b[1..]);
    } else {
      assert b != [] ==> |f| >= 2;
    }
  }

  lemma GroupPreimageInjective(g: Group, h: Group)
    requires SizedGroup(g) && SizedGroup(h) && GroupPreimage(g) == GroupPreimage(h)
    ensures g.matchKind == h.matchKind && KeyOf(g.keeper) == KeyOf(h.keeper)
    ensures MemberKeys(g.members) == MemberKeys(h.members)
  {
    SamePayload(DomainGroup(), GroupElements(g), GroupElements(h));
    var e, f := GroupElements(g), GroupElements(h);
    assert e[0] == f[0] && |e[0]| == |f[0]|;
    assert e[1..3] == EntryElements(g.keeper) && f[1..3] == EntryElements(h.keeper);
    assert e[3..] == MemberElements(g.members) && f[3..] == MemberElements(h.members);
    SameEntry(g.keeper, h.keeper);
    SameMembers(g.members, h.members);
  }

  lemma SlotPreimageInjective(groupId: Text, s: SourceRef, otherId: Text, t: SourceRef)
    requires SizedSlot(groupId, s) && SizedSlot(otherId, t) && SlotPreimage(groupId, s) == SlotPreimage(otherId, t)
    ensures groupId == otherId && KeyOf(s) == KeyOf(t) && s.hash == t.hash
  {
    SamePayload(DomainSlot(), SlotElements(groupId, s), SlotElements(otherId, t));
    var e, f := SlotElements(groupId, s), SlotElements(otherId, t);
    assert e[0] == f[0] && e[3] == f[3];
    assert e[1..3] == EntryElements(s) && f[1..3] == EntryElements(t);
    SameEntry(s, t);
  }

  // ----- reading a preimage back

  function FromSigned(b: seq<byte>): int {
    var n := FromLittleEndian(b);
    if n < 0x8000_0000_0000_0000 then n else n - TWO_64
  }

  lemma SignedReadsBack(n: int)
    requires IsInt64(n)
    ensures FromSigned(Le8Signed(n)) == n
  {
    EightBytes();
    SignedIsUnsigned(n);
    LittleEndianRoundTrip(if n >= 0 then n else n + TWO_64, 8);
  }

  lemma UnsignedReadsBack(n: nat)
    requires n < TWO_64
    ensures FromLittleEndian(Le8(n)) == n
  {
    EightBytes();
    LittleEndianRoundTrip(n, 8);
  }

  function ReadEntry(root: seq<byte>, file: seq<byte>): EntryKey {
    EntryKey(FromLittleEndian(root), FromSigned(file))
  }

  lemma EntryReadsBack(s: SourceRef)
    requires Sized(s)
    ensures |EntryElements(s)| == 2 && ReadEntry(EntryElements(s)[0], EntryElements(s)[1]) == KeyOf(s)
  {
    UnsignedReadsBack(s.root);
    SignedReadsBack(s.file);
  }

  // What follows the domain, element by element.
  function Elements(domain: seq<byte>, preimage: seq<byte>): Option<seq<seq<byte>>> {
    if domain <= preimage then Unframed(preimage[|domain|..]) else None
  }

  lemma ElementsReadBack(domain: seq<byte>, elements: seq<seq<byte>>)
    requires Framable(elements)
    ensures Elements(domain, domain + Framed(elements)) == Some(elements)
  {
    assert (domain + Framed(elements))[|domain|..] == Framed(elements);
    UnframedInvertsFramed(elements);
  }

  // The operation, the destination root and its components; then, except for a directory, the
  // entry read with its hash; then, for a quarantine, the group and the slot.
  function ReadElements(e: seq<seq<byte>>): Option<Identity> {
    var n := |e|;
    if n < 2 then None
    else if e[0] == Ascii("mkdir") then Some(Identity(e[0], FromLittleEndian(e[1]), Mapped(e[2..], ToHex), None, None))
    else if e[0] == Ascii("quarantine") then
      if n < 7 then None
      else Some(Identity(e[0], FromLittleEndian(e[1]), Mapped(e[2..n - 5], ToHex),
                         Some(SourceFacts(ReadEntry(e[n - 5], e[n - 4]), e[n - 3])), Some((e[n - 2], e[n - 1]))))
    else if n < 5 || (e[0] != Ascii("move") && e[0] != Ascii("extract")) then None
    else Some(Identity(e[0], FromLittleEndian(e[1]), Mapped(e[2..n - 3], ToHex),
                       Some(SourceFacts(ReadEntry(e[n - 3], e[n - 2]), e[n - 1])), None))
  }

  function ReadAction(preimage: seq<byte>): Option<Identity> {
    var read := Elements(DomainAction(), preimage);
    if read.None? then None else ReadElements(read.value)
  }

  lemma PartsReadBack(parts: seq<Text>)
    requires AllHex(parts)
    ensures Mapped(Mapped(parts, Bytes), ToHex) == parts
  {
    forall i | 0 <= i < |parts| ensures ToHex(Bytes(parts[i])) == parts[i] { ToHexInvertsUnhex(parts[i]); }
  }

  lemma ElementsOfAction(op: Op)
    ensures var e, k := ActionElements(op), |op.dest.parts|;
            && |e| == 2 + k + |SourceTail(op)|
            && e[0] == Tag(op) && e[1] == Le8(op.dest.root)
            && e[2..2 + k] == Mapped(op.dest.parts, Bytes) && e[2 + k..] == SourceTail(op)
  {
    hide Bytes, Le8, Le8Signed, Tag, EntryElements;
    var head, parts, tail := [Tag(op), Le8(op.dest.root)], Mapped(op.dest.parts, Bytes), SourceTail(op);
    assert ActionElements(op) == head + parts + tail;
  }

  lemma TailIs(op: Op)
    ensures |SourceTail(op)| == if op.Mkdir? then 0 else if op.Quarantine? then 5 else 3
    ensures !op.Mkdir? ==> SourceTail(op)[0] == EntryElements(op.source)[0] && SourceTail(op)[1] == EntryElements(op.source)[1]
                           && SourceTail(op)[2] == op.source.hash
    ensures op.Quarantine? ==> SourceTail(op)[3] == op.groupId && SourceTail(op)[4] == op.slot
  {
    hide Le8, Le8Signed;
  }

  lemma TagsRead(op: Op)
    ensures op.Mkdir? <==> Tag(op) == Ascii("mkdir")
    ensures op.Quarantine? <==> Tag(op) == Ascii("quarantine")
    ensures op.Move? || op.Extract? <==> Tag(op) == Ascii("move") || Tag(op) == Ascii("extract")
  {
    assert |Ascii("mkdir")| == 5 && |Ascii("quarantine")| == 10 && |Ascii("move")| == 4 && |Ascii("extract")| == 7;
  }

  // e lists the elements of an operation with k components.
  ghost predicate Laid(op: Op, e: seq<seq<byte>>, k: nat) {
    && k == |op.dest.parts| && |e| == 2 + k + |SourceTail(op)| && SizedOp(op)
    && e[0] == Tag(op) && e[1] == Le8(op.dest.root) && e[2..2 + k] == Mapped(op.dest.parts, Bytes) && e[2 + k..] == SourceTail(op)
  }

  lemma MkdirReads(op: Op, e: seq<seq<byte>>, k: nat)
    requires Laid(op, e, k) && op.Mkdir?
    ensures ReadElements(e) == Some(IdentityOf(op))
  {
    TagsRead(op);
    TailIs(op);
    PartsReadBack(op.dest.parts);
    UnsignedReadsBack(op.dest.root);
    hide Ascii, Tag, ReadEntry, EntryElements, SourceTail, Le8, Bytes, ToHex, AllHex, ActionElements, Framable, Mapped;
    assert e[2..] == e[2..2 + k];
  }

  lemma QuarantineReads(op: Op, e: seq<seq<byte>>, k: nat)
    requires Laid(op, e, k) && op.Quarantine?
    ensures ReadElements(e) == Some(IdentityOf(op))
  {
    TagsRead(op);
    TailIs(op);
    PartsReadBack(op.dest.parts);
    UnsignedReadsBack(op.dest.root);
    EntryReadsBack(op.source);
    hide Ascii, Tag, ReadEntry, EntryElements, SourceTail, Le8, Bytes, ToHex, AllHex, ActionElements, Framable, Mapped;
    assert forall i :: 0 <= i < 5 ==> e[2 + k + i] == SourceTail(op)[i];
    assert |e| - 5 == 2 + k;
  }

  // What is read of a file taken from its entry.
  lemma ReadsAsTaken(e: seq<seq<byte>>, k: nat)
    requires |e| == 5 + k && (e[0] == Ascii("move") || e[0] == Ascii("extract"))
    requires e[0] != Ascii("mkdir") && e[0] != Ascii("quarantine")
    ensures ReadElements(e) == Some(Identity(e[0], FromLittleEndian(e[1]), Mapped(e[2..2 + k], ToHex),
                                             Some(SourceFacts(ReadEntry(e[2 + k], e[3 + k]), e[4 + k])), None))
  {
    hide Ascii, ReadEntry, ToHex, Mapped, FromLittleEndian;
    assert |e| - 3 == 2 + k;
  }

  lemma MoveReads(op: Op, e: seq<seq<byte>>, k: nat)
    requires Laid(op, e, k) && (op.Move? || op.Extract?)
    ensures ReadElements(e) == Some(IdentityOf(op))
  {
    TagsRead(op);
    TailIs(op);
    PartsReadBack(op.dest.parts);
    UnsignedReadsBack(op.dest.root);
    EntryReadsBack(op.source);
    hide Ascii, Tag, ReadEntry, EntryElements, SourceTail, Le8, Bytes, ToHex, AllHex, ActionElements, Framable, Mapped, ReadElements,
         FromLittleEndian, Sized;
    assert e[2 + k..][0] == e[2 + k] && e[2 + k..][1] == e[3 + k] && e[2 + k..][2] == e[4 + k];
    ReadsAsTaken(e, k);
  }

  // Every fact an action id stands for can be read back from what is hashed for it.
  lemma ActionReadsBack(op: Op)
    requires SizedOp(op)
    ensures ReadAction(ActionPreimage(op)) == Some(IdentityOf(op))
  {
    hide ActionElements, Framed, Framable, Elements, ReadElements, DomainAction, Tag, Le8, Bytes, SourceTail, IdentityOf;
    ElementsReadBack(DomainAction(), ActionElements(op));
    ElementsOfAction(op);
    var e, k := ActionElements(op), |op.dest.parts|;
    assert Laid(op, e, k);
    if op.Mkdir? { MkdirReads(op, e, k); } else if op.Quarantine? { QuarantineReads(op, e, k); } else { MoveReads(op, e, k); }
  }

  // Kind, keeper and members of a group.
  datatype Gathering = Gathering(kind: seq<byte>, entries: seq<EntryKey>)

  function ReadPairs(e: seq<seq<byte>>): seq<EntryKey> {
    if |e| < 2 then [] else [ReadEntry(e[0], e[1])] + ReadPairs(e[2..])
  }

  function ReadGroup(preimage: seq<byte>): Option<Gathering> {
    var read := Elements(DomainGroup(), preimage);
    if read.None? || read.value == [] then None else Some(Gathering(read.value[0], ReadPairs(read.value[1..])))
  }

  lemma {:induction false} PairsReadBack(members: seq<GroupMember>)
    requires forall k :: 0 <= k < |members| ==> Sized(members[k].entry)
    ensures |ReadPairs(MemberElements(members))| == |members|
    ensures forall k :: 0 <= k < |members| ==> ReadPairs(MemberElements(members))[k] == KeyOf(members[k].entry)
  {
    hide ReadEntry, Sized, EntryElements;
    if members != [] {
      var first, rest := EntryElements(members[0].entry), MemberElements(members[1..]);
      PairsReadBack(members[1..]);
      EntryReadsBack(members[0].entry);
      assert (first + rest)[0] == first[0] && (first + rest)[1] == first[1] && (first + rest)[2..] == rest;
    }
  }

  lemma ReadPairsIs(first: seq<seq<byte>>, rest: seq<seq<byte>>)
    requires |first| == 2
    ensures ReadPairs(first + rest) == [ReadEntry(first[0], first[1])] + ReadPairs(rest)
  {
    hide ReadEntry;
    assert (first + rest)[0] == first[0] && (first + rest)[1] == first[1] && (first + rest)[2..] == rest;
  }

  lemma ElementsOfGroup(g: Group)
    ensures var e := GroupElements(g);
            && e != [] && e[0] == (if g.matchKind.Exact? then Ascii("exact") else Ascii("near"))
            && e[1..] == EntryElements(g.keeper) + MemberElements(g.members)
  {
    hide EntryElements, MemberElements, Ascii;
    assert ([KindName(g.matchKind)] + EntryElements(g.keeper) + MemberElements(g.members))[1..]
        == EntryElements(g.keeper) + MemberElements(g.members);
  }

  lemma GroupReadsBack(g: Group)
    requires SizedGroup(g)
    ensures ReadGroup(GroupPreimage(g)).Some?
    ensures var r := ReadGroup(GroupPreimage(g)).value;
            && r.kind == (if g.matchKind.Exact? then Ascii("exact") else Ascii("near"))
            && |r.entries| == 1 + |g.members| && r.entries[0] == KeyOf(g.keeper)
            && forall k :: 0 <= k < |g.members| ==> r.entries[k + 1] == KeyOf(g.members[k].entry)
  {
    hide Elements, Framed, Framable, ReadEntry, EntryElements, MemberElements, Ascii, DomainGroup, GroupElements, Sized, ReadPairs;
    ElementsReadBack(DomainGroup(), GroupElements(g));
    ElementsOfGroup(g);
    EntryReadsBack(g.keeper);
    PairsReadBack(g.members);
    ReadPairsIs(EntryElements(g.keeper), MemberElements(g.members));
  }

  // Group, entry and content hash of a slot, in this order.
  lemma SlotReadsBack(groupId: Text, s: SourceRef)
    requires SizedSlot(groupId, s)
    ensures var read := Elements(DomainSlot(), SlotPreimage(groupId, s));
            && read.Some? && |read.value| == 4 && read.value[0] == groupId
            && ReadEntry(read.value[1], read.value[2]) == KeyOf(s) && read.value[3] == s.hash
  {
    ElementsReadBack(DomainSlot(), SlotElements(groupId, s));
    EntryReadsBack(s);
    hide Elements, Framed, Framable, ReadEntry, DomainSlot;
  }

  // Every preimage starts with the name, version and kind of the format.
  lemma DomainNames(op: Op, g: Group, groupId: Text, s: SourceRef)
    ensures Ascii("backupsage.plan.v1.action\0") <= ActionPreimage(op)
    ensures Ascii("backupsage.plan.v1.group\0") <= GroupPreimage(g)
    ensures Ascii("backupsage.plan.v1.slot\0") <= SlotPreimage(groupId, s)
  {
    hide Ascii, Framed, ActionElements, GroupElements, SlotElements;
  }

  // No action preimage is a group or slot preimage, whatever follows the domain.
  lemma DomainsApart(x: seq<byte>, y: seq<byte>)
    ensures DomainAction() + x != DomainGroup() + y
    ensures DomainAction() + x != DomainSlot() + y
    ensures DomainGroup() + x != DomainSlot() + y
  {
    assert (DomainAction() + x)[19] == 97;
    assert (DomainGroup() + x)[19] == 103 && (DomainGroup() + y)[19] == 103;
    assert (DomainSlot() + y)[19] == 115;
  }

  // An id is the lowercase hex of the first bytes of the digest of its preimage: 16 for an
  // action, 8 for a group, 4 for a slot.
  lemma IdsAreDigests(env: Env, op: Op, g: Group, groupId: Text, s: SourceRef)
    ensures Unhex(ActionId(env, op)) == Ok(env.blake3(ActionPreimage(op))[..16]) && |ActionId(env, op)| == 32
    ensures Unhex(GroupId(env, g)) == Ok(env.blake3(GroupPreimage(g))[..8]) && |GroupId(env, g)| == 16
    ensures Unhex(Slot(env, groupId, s)) == Ok(env.blake3(SlotPreimage(groupId, s))[..4]) && |Slot(env, groupId, s)| == 8
  {
    hide ActionElements, GroupElements, SlotElements, Unhex, ToHex, Framed, DomainAction, DomainGroup, DomainSlot;
    UnhexInvertsToHex(env.blake3(ActionPreimage(op))[..16]);
    UnhexInvertsToHex(env.blake3(GroupPreimage(g))[..8]);
    UnhexInvertsToHex(env.blake3(SlotPreimage(groupId, s))[..4]);
  }

  // Two actions share an id only if they share their identity or the truncated hash collides.
  lemma ActionIdsTellApart(env: Env, a: Op, b: Op)
    requires SizedOp(a) && SizedOp(b) && ActionId(env, a) == ActionId(env, b)
    ensures IdentityOf(a) == IdentityOf(b)
         || (ActionPreimage(a) != ActionPreimage(b)
             && env.blake3(ActionPreimage(a))[..16] == env.blake3(ActionPreimage(b))[..16])
  {
    var x, y := env.blake3(ActionPreimage(a))[..16], env.blake3(ActionPreimage(b))[..16];
    UnhexInvertsToHex(x);
    UnhexInvertsToHex(y);
    if ActionPreimage(a) == ActionPreimage(b) {
      ActionPreimageInjective(a, b);
    }
  }
}
