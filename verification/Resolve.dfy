/**
 Lenient path resolution (src/core/outpath.rs): where a path leads once its missing
 components exist, following symbolic links component by component. The reference is
 pathname resolution, section 4.13 of the POSIX.1-2017 Base Definitions.
 */
module Resolve {
  import opened Basics
  import opened Order

  const MAX_SYMLINK_HOPS := 40

  const SLASH: byte := 47
  const DOT: byte := 46

  type Name = seq<byte>

  // An absolute path: the names from the root down.
  type Path = seq<Name>

  datatype Part = Root | Up | Named(name: Name)

  datatype Node = Dir | File | Link(target: seq<byte>)

  // `denied` holds the paths that cannot be inspected.
  datatype Fs = Fs(tree: map<Path, Node>, denied: set<Path>)

  datatype Stat = IsLink(target: seq<byte>) | Exists | Missing | Failed

  // ----- path text

  // The text up to the first slash, and what follows it.
  function Segment(s: seq<byte>): (r: (Name, seq<byte>))
    ensures |r.1| < |s| || (s == [] && r == ([], []))
    ensures SLASH !in r.0
    ensures s == r.0 + r.1 || s == r.0 + [SLASH] + r.1
  {
    if s == [] then ([], [])
    else if s[0] == SLASH then ([], s[1..])
    else
      var (name, rest) := Segment(s[1..]);
      ([s[0]] + name, rest)
  }

  // Empty and "." components are dropped.
  function Piece(name: Name): seq<Part> {
    if name == [] || name == [DOT] then [] else if name == [DOT, DOT] then [Up] else [Named(name)]
  }

  function RelativeParts(s: seq<byte>): seq<Part>
    decreases |s|
  {
    if s == [] then []
    else
      var (name, rest) := Segment(s);
      Piece(name) + RelativeParts(rest)
  }

  function Parts(s: seq<byte>): seq<Part> {
    (if s != [] && s[0] == SLASH then [Root] else []) + RelativeParts(s)
  }

  function Render(p: Path): seq<byte> {
    if p == [] then [SLASH] else RenderNames(p)
  }

  function RenderNames(p: Path): seq<byte> {
    if p == [] then [] else [SLASH] + p[0] + RenderNames(p[1..])
  }

  predicate LegalName(n: Name) {
    n != [] && n != [DOT] && n != [DOT, DOT] && SLASH !in n
  }

  predicate LegalPath(p: Path) {
    forall n :: n in p ==> LegalName(n)
  }

  predicate LegalParts(ps: seq<Part>) {
    forall p :: p in ps && p.Named? ==> LegalName(p.name)
  }

  function NamedParts(p: Path): seq<Part> {
    seq(|p|, i requires 0 <= i < |p| => Named(p[i]))
  }

  lemma {:induction false} RelativePartsLegal(s: seq<byte>)
    ensures LegalParts(RelativeParts(s))
    decreases |s|
  {
    if s != [] {
      RelativePartsLegal(Segment(s).1);
    }
  }

  // A slash and a name, then nothing or another slash.
  lemma PartsOfFirst(n: Name, rest: seq<byte>)
    requires LegalName(n) && (rest == [] || rest[0] == 47)
    ensures RelativeParts([47] + n + rest) == [Named(n)] + RelativeParts(rest)
  {
    hide RelativeParts;
    NothingLeads();
    PartsOfSegment(n);
    PartsOfJoined([], n + rest);
    assert [] + [47] + (n + rest) == [47] + n + rest;
    if rest == [] {
      assert n + rest == n;
    } else {
      PartsOfJoined(n, rest[1..]);
      PartsOfJoined([], rest[1..]);
      assert n + rest == n + [47] + rest[1..] && rest == [] + [47] + rest[1..];
    }
  }

  // Names without separators come back as they were written.
  lemma {:induction false} PartsOfNames(p: Path)
    requires LegalPath(p)
    ensures RelativeParts(RenderNames(p)) == NamedParts(p)
    ensures p == [] || RenderNames(p)[0] == SLASH
  {
    hide RelativeParts, LegalName;
    if p == [] {
      NothingLeads();
    } else {
      assert p[0] in p && forall m :: m in p[1..] ==> m in p;
      PartsOfNames(p[1..]);
      assert p[1..] == [] ==> RenderNames(p[1..]) == [];
      PartsOfFirst(p[0], RenderNames(p[1..]));
      assert NamedParts(p) == [Named(p[0])] + NamedParts(p[1..]);
    }
  }

  lemma PartsOfRendered(p: Path)
    requires LegalPath(p)
    ensures Parts(Render(p)) == [Root] + NamedParts(p)
  {
    PartsOfNames(p);
    if p == [] { assert RelativeParts([SLASH]) == []; }
  }

  // ----- how a text is read

  lemma RelativePartsIs(s: seq<byte>)
    ensures RelativeParts(s) == Piece(Segment(s).0) + RelativeParts(Segment(s).1)
  {
    hide Segment;
    if s == [] { assert Segment(s) == ([], []); }
  }

  // Reading a text up to a slash and reading on after it is reading it all.
  lemma {:induction false} PartsOfJoined(s: seq<byte>, t: seq<byte>)
    ensures RelativeParts(s + [47] + t) == RelativeParts(s) + RelativeParts(t)
    decreases |s|
  {
    hide Segment, RelativeParts, Piece;
    SegmentOfJoined(s, t);
    RelativePartsIs(s + [47] + t);
    RelativePartsIs(s);
    if SLASH in s {
      SegmentShorter(s);
      PartsOfJoined(Segment(s).1, t);
      assert Piece(Segment(s).0) + RelativeParts(Segment(s).1) + RelativeParts(t)
          == Piece(Segment(s).0) + (RelativeParts(Segment(s).1) + RelativeParts(t));
    } else {
      NothingLeads();
    }
  }

  lemma NothingLeads()
    ensures RelativeParts([]) == []
  {
  }

  lemma SegmentShorter(s: seq<byte>)
    requires s != []
    ensures |Segment(s).1| < |s|
  {
  }

  lemma {:induction false} SegmentOfJoined(s: seq<byte>, t: seq<byte>)
    ensures Segment(s + [47] + t) == (Segment(s).0, if SLASH in s then Segment(s).1 + [47] + t else t)
    ensures SLASH !in s ==> Segment(s) == (s, [])
  {
    var all := s + [47] + t;
    if s == [] {
      assert all == [47] + t && all[1..] == t;
    } else {
      assert all[0] == s[0] && all[1..] == s[1..] + [47] + t;
      assert s == [s[0]] + s[1..];
      if s[0] != SLASH { SegmentOfJoined(s[1..], t); }
    }
  }

  // A piece between slashes: nothing and "." lead nowhere, ".." leads up, anything else is a name.
  lemma PartsOfSegment(s: seq<byte>)
    requires 47 !in s
    ensures s == [] || s == [46] ==> RelativeParts(s) == []
    ensures s == [46, 46] ==> RelativeParts(s) == [Up]
    ensures s != [] && s != [46] && s != [46, 46] ==> RelativeParts(s) == [Named(s)]
  {
    SegmentOfJoined(s, []);
    if s != [] { assert RelativeParts(Segment(s).1) == []; }
  }

  function Slashed(pieces: seq<seq<byte>>): seq<byte> {
    if pieces == [] then [] else if |pieces| == 1 then pieces[0] else pieces[0] + [47] + Slashed(pieces[1..])
  }

  ghost predicate ReadPiecewise(pieces: seq<seq<byte>>, parts: seq<Part>) {
    if pieces == [] then parts == []
    else if pieces[0] == [] || pieces[0] == [46] then ReadPiecewise(pieces[1..], parts)
    else
      parts != [] && ReadPiecewise(pieces[1..], parts[1..])
      && parts[0] == if pieces[0] == [46, 46] then Up else Named(pieces[0])
  }

  lemma SlashedIs(pieces: seq<seq<byte>>)
    requires pieces != []
    ensures Slashed(pieces) == if |pieces| == 1 then pieces[0] else pieces[0] + [47] + Slashed(pieces[1..])
    ensures pieces[0] != [] ==> Slashed(pieces) != [] && Slashed(pieces)[0] == pieces[0][0]
  {
  }

  lemma ReadFirst(pieces: seq<seq<byte>>, head: seq<Part>, tail: seq<Part>)
    requires pieces != [] && 47 !in pieces[0] && head == RelativeParts(pieces[0]) && ReadPiecewise(pieces[1..], tail)
    ensures ReadPiecewise(pieces, head + tail)
  {
    PartsOfSegment(pieces[0]);
    hide RelativeParts;
    if head != [] { assert (head + tail)[1..] == tail; } else { assert head + tail == tail; }
  }

  // A text is read piece by piece.
  lemma {:induction false} PartsOfPieces(pieces: seq<seq<byte>>)
    requires forall x :: x in pieces ==> 47 !in x
    ensures ReadPiecewise(pieces, RelativeParts(Slashed(pieces)))
  {
    if pieces == [] {
      NothingLeads();
    } else {
      assert pieces[0] in pieces && forall x :: x in pieces[1..] ==> x in pieces;
      PartsOfPieces(pieces[1..]);
      hide RelativeParts, ReadPiecewise, Slashed;
      SlashedIs(pieces);
      var head, tail := RelativeParts(pieces[0]), RelativeParts(Slashed(pieces[1..]));
      ReadFirst(pieces, head, tail);
      if |pieces| > 1 {
        PartsOfJoined(pieces[0], Slashed(pieces[1..]));
      } else {
        NothingSlashed();
        NothingLeads();
        assert pieces[1..] == [] && head + tail == head;
      }
    }
  }

  lemma NothingSlashed()
    ensures Slashed([]) == []
  {
  }

  // And a slash in front leads to the root first.
  lemma PartsOfText(pieces: seq<seq<byte>>)
    requires forall x :: x in pieces ==> 47 !in x
    ensures ReadPiecewise(pieces, RelativeParts(Slashed(pieces)))
    ensures Parts([47] + Slashed(pieces)) == [Root] + RelativeParts(Slashed(pieces))
    ensures pieces != [] && pieces[0] != [] ==> Parts(Slashed(pieces)) == RelativeParts(Slashed(pieces))
  {
    PartsOfPieces(pieces);
    PartsOfJoined([], Slashed(pieces));
    NothingLeads();
    hide RelativeParts, ReadPiecewise, Slashed;
    assert [] + [47] + Slashed(pieces) == [47] + Slashed(pieces);
    if pieces != [] && pieces[0] != [] {
      SlashedIs(pieces);
      assert pieces[0] in pieces && pieces[0][0] in pieces[0];
    }
  }

  // ----- the file system

  predicate BelowFile(fs: Fs, p: Path) {
    exists k :: 0 <= k < |p| && p[..k] in fs.tree && fs.tree[p[..k]] == File
  }

  // Inspecting a path whose proper prefixes hold no link.
  function Lstat(fs: Fs, p: Path): Stat {
    if p in fs.denied || BelowFile(fs, p) then Failed
    else if p !in fs.tree then Missing
    else match fs.tree[p]
      case Link(target) => IsLink(target)
      case _ => Exists
  }

  function Parent(p: Path): Path {
    if p == [] then [] else p[..|p| - 1]
  }

  // ----- lenient resolution

  // Follow the parts from a directory; the measure is the links left, then the parts left.
  function Follow(fs: Fs, todo: seq<Part>, at: Path, hops: nat): Option<Path>
    requires hops <= MAX_SYMLINK_HOPS
    decreases MAX_SYMLINK_HOPS - hops, |todo|
  {
    if todo == [] then Some(at)
    else match todo[0]
      case Root => Follow(fs, todo[1..], [], hops)
      case Up => Follow(fs, todo[1..], Parent(at), hops)
      case Named(n) =>
        match Lstat(fs, at + [n])
        case IsLink(target) =>
          if hops + 1 > MAX_SYMLINK_HOPS then None else Follow(fs, Parts(target) + todo[1..], at, hops + 1)
        case Failed => None
        case _ => Follow(fs, todo[1..], at + [n], hops)
  }

  function Absolute(cwd: Option<seq<Part>>, path: seq<byte>): Option<seq<Part>> {
    if path != [] && path[0] == SLASH then Some(Parts(path))
    else if cwd.None? then None
    else Some(cwd.value + Parts(path))
  }

  function ResolveLenient(fs: Fs, cwd: Option<seq<Part>>, path: seq<byte>): Option<Path> {
    var start := Absolute(cwd, path);
    if start.None? then None else Follow(fs, start.value, [], 0)
  }

  method PushFront(todo: seq<Part>, target: seq<Part>) returns (r: seq<Part>)
    ensures r == target + todo
  {
    r := todo;
    for k := |target| downto 0
      invariant r == target[k..] + todo
    {
      r := [target[k]] + r;
    }
  }

  method Run(fs: Fs, cwd: Option<seq<Part>>, path: seq<byte>) returns (r: Option<Path>)
    ensures r == ResolveLenient(fs, cwd, path)
  {
    var start := Absolute(cwd, path);
    if start.None? { return None; }
    var todo, resolved: Path, hops := start.value, [], 0;
    while todo != []
      invariant hops <= MAX_SYMLINK_HOPS
      invariant Follow(fs, todo, resolved, hops) == ResolveLenient(fs, cwd, path)
      decreases MAX_SYMLINK_HOPS - hops, |todo|
    {
      var part := todo[0];
      todo := todo[1..];
      match part {
        case Root => resolved := [];
        case Up => resolved := Parent(resolved);
        case Named(n) =>
          var candidate := resolved + [n];
          match Lstat(fs, candidate) {
            case IsLink(target) =>
              hops := hops + 1;
              if hops > MAX_SYMLINK_HOPS { return None; }
              todo := PushFront(todo, Parts(target));
            case Failed => return None;
            case _ => resolved := candidate;
          }
      }
    }
    r := Some(resolved);
  }

  // ----- steps up, and relative paths

  lemma {:induction false} UpAtTheEnd(fs: Fs, todo: seq<Part>, at: Path, hops: nat)
    requires hops <= MAX_SYMLINK_HOPS
    ensures var r := Follow(fs, todo, at, hops);
            Follow(fs, todo + [Up], at, hops) == if r.None? then None else Some(if r.value == [] then [] else r.value[..|r.value| - 1])
    decreases MAX_SYMLINK_HOPS - hops, |todo|
  {
    var all := todo + [Up];
    if todo == [] {
      assert all == [Up] && all[1..] == [];
    } else {
      assert all[0] == todo[0] && all[1..] == todo[1..] + [Up];
      match todo[0]
      case Root => UpAtTheEnd(fs, todo[1..], [], hops);
      case Up => UpAtTheEnd(fs, todo[1..], Parent(at), hops);
      case Named(n) =>
        match Lstat(fs, at + [n])
        case IsLink(target) =>
          if hops + 1 <= MAX_SYMLINK_HOPS {
            assert Parts(target) + todo[1..] + [Up] == Parts(target) + all[1..];
            UpAtTheEnd(fs, Parts(target) + todo[1..], at, hops + 1);
          }
        case Failed =>
        case _ => UpAtTheEnd(fs, todo[1..], at + [n], hops);
    }
  }

  lemma PartsOfParent(path: seq<byte>)
    requires path != []
    ensures Parts(path + [47, 46, 46]) == Parts(path) + [Up]
  {
    assert path + [47, 46, 46] == path + [47] + [46, 46];
    PartsOfJoined(path, [46, 46]);
    PartsOfSegment([46, 46]);
    hide RelativeParts;
  }

  // "/.." behind a path leads to the parent of where the path leads, links included; the root
  // is its own parent.
  lemma DotDotIsParent(fs: Fs, cwd: Option<seq<Part>>, path: seq<byte>)
    requires path != []
    ensures var r := ResolveLenient(fs, cwd, path);
            ResolveLenient(fs, cwd, path + [47, 46, 46])
            == if r.None? then None else Some(if r.value == [] then [] else r.value[..|r.value| - 1])
  {
    hide Parts, Follow;
    PartsOfParent(path);
    var start := Absolute(cwd, path);
    assert (path + [47, 46, 46])[0] == path[0];
    if start.Some? {
      assert Absolute(cwd, path + [47, 46, 46]).value == start.value + [Up];
      UpAtTheEnd(fs, start.value, [], 0);
    }
  }

  // A relative path leads from the working directory: as if that were written in front of it.
  lemma RelativeFromHere(fs: Fs, here: seq<byte>, path: seq<byte>)
    requires here != [] && here[0] == 47 && (path == [] || path[0] != 47)
    ensures ResolveLenient(fs, Some(Parts(here)), path) == ResolveLenient(fs, None, here + [47] + path)
  {
    PartsOfJoined(here, path);
    hide RelativeParts;
    assert (here + [47] + path)[0] == 47;
    assert Parts(here + [47] + path) == Parts(here) + Parts(path);
  }

  // ----- the result is resolved

  predicate Plain(s: Stat) {
    s == Exists || s == Missing
  }

  // Every prefix can be inspected and none is a link.
  ghost predicate Clear(fs: Fs, p: Path) {
    forall k :: 0 < k <= |p| ==> Plain(Lstat(fs, p[..k]))
  }

  lemma ClearParent(fs: Fs, p: Path)
    requires Clear(fs, p)
    ensures Clear(fs, Parent(p))
  {
    forall k | 0 < k <= |Parent(p)| ensures Plain(Lstat(fs, Parent(p)[..k])) {
      assert Parent(p)[..k] == p[..k];
    }
  }

  lemma ClearChild(fs: Fs, p: Path, n: Name)
    requires Clear(fs, p) && Plain(Lstat(fs, p + [n]))
    ensures Clear(fs, p + [n])
  {
    forall k | 0 < k <= |p| + 1 ensures Plain(Lstat(fs, (p + [n])[..k])) {
      if k <= |p| { assert (p + [n])[..k] == p[..k]; } else { assert (p + [n])[..k] == p + [n]; }
    }
  }

  lemma {:induction false} FollowClear(fs: Fs, todo: seq<Part>, at: Path, hops: nat)
    requires hops <= MAX_SYMLINK_HOPS && Clear(fs, at) && LegalPath(at) && LegalParts(todo)
    ensures Follow(fs, todo, at, hops).Some? ==>
              Clear(fs, Follow(fs, todo, at, hops).value) && LegalPath(Follow(fs, todo, at, hops).value)
    decreases MAX_SYMLINK_HOPS - hops, |todo|
  {
    if todo != [] {
      assert todo[0] in todo && forall p :: p in todo[1..] ==> p in todo;
      match todo[0]
      case Root => FollowClear(fs, todo[1..], [], hops);
      case Up =>
        ClearParent(fs, at);
        assert forall n :: n in Parent(at) ==> n in at;
        FollowClear(fs, todo[1..], Parent(at), hops);
      case Named(n) =>
        match Lstat(fs, at + [n])
        case IsLink(target) =>
          if hops + 1 <= MAX_SYMLINK_HOPS {
            RelativePartsLegal(target);
            FollowClear(fs, Parts(target) + todo[1..], at, hops + 1);
          }
        case Failed =>
        case _ =>
          ClearChild(fs, at, n);
          FollowClear(fs, todo[1..], at + [n], hops);
    }
  }

  lemma {:induction false} FollowNames(fs: Fs, names: Path, rest: seq<Part>, at: Path, hops: nat)
    requires hops <= MAX_SYMLINK_HOPS && Clear(fs, at + names)
    ensures Follow(fs, NamedParts(names) + rest, at, hops) == Follow(fs, rest, at + names, hops)
  {
    if names == [] {
      assert NamedParts(names) + rest == rest && at + names == at;
    } else {
      var todo := NamedParts(names) + rest;
      assert at + [names[0]] == (at + names)[..|at| + 1];
      assert at + [names[0]] + names[1..] == at + names;
      assert todo[1..] == NamedParts(names[1..]) + rest;
      FollowNames(fs, names[1..], rest, at + [names[0]], hops);
    }
  }

  // Parts of a legal cwd lead to a result with no link in any prefix, whose own text
  // resolves to itself from anywhere.
  lemma ResolvedIsFixed(fs: Fs, cwd: Option<seq<Part>>, path: seq<byte>, anywhere: Option<seq<Part>>)
    requires cwd.Some? ==> LegalParts(cwd.value)
    requires ResolveLenient(fs, cwd, path).Some?
    ensures var r := ResolveLenient(fs, cwd, path).value;
            && (forall k :: 0 < k <= |r| ==> r[..k] !in fs.tree || !fs.tree[r[..k]].Link?)
            && ResolveLenient(fs, anywhere, Render(r)) == Some(r)
  {
    var r := ResolveLenient(fs, cwd, path).value;
    RelativePartsLegal(path);
    FollowClear(fs, Absolute(cwd, path).value, [], 0);
    PartsOfRendered(r);
    assert [] + r == r && NamedParts(r) + [] == NamedParts(r);
    FollowNames(fs, r, [], [], 0);
    PartsOfNames(r);
    assert ([Root] + NamedParts(r))[1..] == NamedParts(r);
    forall k | 0 < k <= |r| ensures r[..k] !in fs.tree || !fs.tree[r[..k]].Link? {
      assert Plain(Lstat(fs, r[..k]));
    }
  }

  // A name below a regular file cannot be looked up, and the path is refused however it goes on.
  lemma BelowFileRefused(fs: Fs, p: Path, n: Name, rest: seq<Part>)
    requires Clear(fs, p) && p in fs.tree && fs.tree[p] == File
    ensures Follow(fs, NamedParts(p) + ([Named(n)] + rest), [], 0) == None
  {
    assert [] + p == p;
    FollowNames(fs, p, [Named(n)] + rest, [], 0);
    assert BelowFile(fs, p + [n]) by { assert (p + [n])[..|p|] == p; }
  }

  // ----- creating what is missing changes nothing

  // `after` is `before` with directories at some missing paths.
  ghost predicate DirectoriesCreated(before: Fs, after: Fs) {
    && after.denied == before.denied
    && (forall p :: p in before.tree ==> p in after.tree && after.tree[p] == before.tree[p])
    && (forall p :: p in after.tree && p !in before.tree ==> after.tree[p] == Dir)
  }

  lemma CreatedStat(before: Fs, after: Fs, p: Path)
    requires DirectoriesCreated(before, after)
    ensures Lstat(after, p) == Lstat(before, p) || (Lstat(before, p) == Missing && Lstat(after, p) == Exists)
  {
    assert BelowFile(before, p) <==> BelowFile(after, p);
  }

  lemma {:induction false} FollowAfterCreation(before: Fs, after: Fs, todo: seq<Part>, at: Path, hops: nat)
    requires DirectoriesCreated(before, after) && hops <= MAX_SYMLINK_HOPS
    ensures Follow(after, todo, at, hops) == Follow(before, todo, at, hops)
    decreases MAX_SYMLINK_HOPS - hops, |todo|
  {
    if todo != [] {
      match todo[0]
      case Root => FollowAfterCreation(before, after, todo[1..], [], hops);
      case Up => FollowAfterCreation(before, after, todo[1..], Parent(at), hops);
      case Named(n) =>
        CreatedStat(before, after, at + [n]);
        match Lstat(before, at + [n])
        case IsLink(target) =>
          if hops + 1 <= MAX_SYMLINK_HOPS { FollowAfterCreation(before, after, Parts(target) + todo[1..], at, hops + 1); }
        case Failed =>
        case _ => FollowAfterCreation(before, after, todo[1..], at + [n], hops);
    }
  }

  lemma CreationKeepsResolution(before: Fs, after: Fs, cwd: Option<seq<Part>>, path: seq<byte>)
    requires DirectoriesCreated(before, after)
    ensures ResolveLenient(after, cwd, path) == ResolveLenient(before, cwd, path)
  {
    if Absolute(cwd, path).Some? { FollowAfterCreation(before, after, Absolute(cwd, path).value, [], 0); }
  }

  // ----- strict resolution

  datatype Walked = Reached(at: Path, hops: nat) | Enoent | Enotdir | Eloop | Eother

  predicate IsDir(fs: Fs, p: Path) {
    p == [] || (p in fs.tree && fs.tree[p] == Dir)
  }

  // As the kernel does it: every component must exist, every one that is looked into must be
  // a directory, and a link is resolved completely, from its own directory, before the rest.
  function Strict(fs: Fs, parts: seq<Part>, at: Path, hops: nat): (r: Walked)
    requires hops <= MAX_SYMLINK_HOPS
    ensures r.Reached? ==> hops <= r.hops <= MAX_SYMLINK_HOPS
    decreases MAX_SYMLINK_HOPS - hops, |parts|
  {
    if parts == [] then Reached(at, hops)
    else match parts[0]
      case Root => Strict(fs, parts[1..], [], hops)
      case Up => if IsDir(fs, at) then Strict(fs, parts[1..], Parent(at), hops) else Enotdir
      case Named(n) =>
        if !IsDir(fs, at) then Enotdir
        else match Lstat(fs, at + [n])
          case IsLink(target) =>
            if hops + 1 > MAX_SYMLINK_HOPS then Eloop
            else
              var inner := Strict(fs, Parts(target), at, hops + 1);
              if inner.Reached? then Strict(fs, parts[1..], inner.at, inner.hops) else inner
          case Exists => Strict(fs, parts[1..], at + [n], hops)
          case Missing => Enoent
          case Failed => Eother
  }

  // The work list does what the nested resolution does, and goes on where that stops at a
  // missing or non-directory component.
  lemma {:induction false} FollowsStrict(fs: Fs, parts: seq<Part>, rest: seq<Part>, at: Path, hops: nat)
    requires hops <= MAX_SYMLINK_HOPS
    ensures var s := Strict(fs, parts, at, hops);
            match s
            case Reached(p, h) => Follow(fs, parts + rest, at, hops) == Follow(fs, rest, p, h)
            case Eloop => Follow(fs, parts + rest, at, hops) == None
            case Eother => Follow(fs, parts + rest, at, hops) == None
            case _ => true
    decreases MAX_SYMLINK_HOPS - hops, |parts|
  {
    var todo := parts + rest;
    if parts == [] {
      assert todo == rest;
    } else {
      assert todo[0] == parts[0] && todo[1..] == parts[1..] + rest;
      match parts[0]
      case Root => FollowsStrict(fs, parts[1..], rest, [], hops);
      case Up => FollowsStrict(fs, parts[1..], rest, Parent(at), hops);
      case Named(n) =>
        if IsDir(fs, at) {
          match Lstat(fs, at + [n])
          case IsLink(target) =>
            if hops + 1 <= MAX_SYMLINK_HOPS {
              FollowsStrict(fs, Parts(target), todo[1..], at, hops + 1);
              var inner := Strict(fs, Parts(target), at, hops + 1);
              if inner.Reached? { FollowsStrict(fs, parts[1..], rest, inner.at, inner.hops); }
            }
          case Exists => FollowsStrict(fs, parts[1..], rest, at + [n], hops);
          case _ =>
        }
    }
  }

  // ----- where the two agree

  // A component come by: the directory it is taken from, and what is found under that name.
  datatype Visit = Visit(from: Path, part: Part, found: Stat)

  // Every component a resolution comes by, up to the one that ends it; ".." and "/" find something.
  function Visits(fs: Fs, todo: seq<Part>, at: Path, hops: nat): seq<Visit>
    requires hops <= MAX_SYMLINK_HOPS
    decreases MAX_SYMLINK_HOPS - hops, |todo|
  {
    if todo == [] then []
    else match todo[0]
      case Root => [Visit(at, Root, Exists)] + Visits(fs, todo[1..], [], hops)
      case Up => [Visit(at, Up, Exists)] + Visits(fs, todo[1..], Parent(at), hops)
      case Named(n) =>
        var found := Lstat(fs, at + [n]);
        [Visit(at, todo[0], found)] + match found
          case IsLink(target) =>
            if hops + 1 > MAX_SYMLINK_HOPS then [] else Visits(fs, Parts(target) + todo[1..], at, hops + 1)
          case Failed => []
          case _ => Visits(fs, todo[1..], at + [n], hops)
  }

  function Links(visits: seq<Visit>): nat {
    if visits == [] then 0 else (if visits[0].found.IsLink? then 1 else 0) + Links(visits[1..])
  }

  // Something cannot be inspected, or more links are met than are followed.
  ghost predicate Barred(visits: seq<Visit>, hops: nat) {
    (exists v :: v in visits && v.found == Failed) || hops + Links(visits) > 40
  }

  // Every name and every ".." is taken from a directory, and every name is there.
  ghost predicate Grounded(fs: Fs, visits: seq<Visit>) {
    forall v :: v in visits && v.part != Root ==> IsDir(fs, v.from) && v.found != Missing
  }

  lemma BarredCons(v: Visit, rest: seq<Visit>, hops: nat)
    ensures Barred([v] + rest, hops) <==> v.found == Failed || Barred(rest, if v.found.IsLink? then hops + 1 else hops)
  {
    assert ([v] + rest)[1..] == rest;
    assert forall x :: x in [v] + rest <==> x == v || x in rest;
  }

  lemma GroundedCons(fs: Fs, v: Visit, rest: seq<Visit>)
    ensures Grounded(fs, [v] + rest) <==> (v.part != Root ==> IsDir(fs, v.from) && v.found != Missing) && Grounded(fs, rest)
  {
    assert forall x :: x in [v] + rest <==> x == v || x in rest;
  }

  // Lenient resolution refuses exactly when it is barred.
  lemma {:induction false} RefusedWhenBarred(fs: Fs, todo: seq<Part>, at: Path, hops: nat)
    requires hops <= MAX_SYMLINK_HOPS
    ensures Follow(fs, todo, at, hops) == None <==> Barred(Visits(fs, todo, at, hops), hops)
    decreases MAX_SYMLINK_HOPS - hops, |todo|
  {
    hide Barred;
    if todo == [] {
      assert !Barred([], hops) by { NothingBars(hops); }
    } else {
      var v := Visits(fs, todo, at, hops);
      BarredCons(v[0], v[1..], hops);
      assert v == [v[0]] + v[1..];
      match todo[0]
      case Root => RefusedWhenBarred(fs, todo[1..], [], hops);
      case Up => RefusedWhenBarred(fs, todo[1..], Parent(at), hops);
      case Named(n) =>
        match Lstat(fs, at + [n])
        case IsLink(target) =>
          if hops + 1 <= MAX_SYMLINK_HOPS {
            RefusedWhenBarred(fs, Parts(target) + todo[1..], at, hops + 1);
          } else {
            assert Barred([], hops + 1) by { NothingBars(hops + 1); }
          }
        case Failed =>
        case _ => RefusedWhenBarred(fs, todo[1..], at + [n], hops);
    }
  }

  lemma NothingBars(hops: nat)
    ensures Barred([], hops) <==> hops > MAX_SYMLINK_HOPS
  {
  }

  // What strict resolution passes is grounded, and where it stops for want of a directory or
  // a name the walk is not.
  lemma {:induction false} StrictGrounds(fs: Fs, parts: seq<Part>, rest: seq<Part>, at: Path, hops: nat)
    requires hops <= MAX_SYMLINK_HOPS
    ensures var s, v := Strict(fs, parts, at, hops), Visits(fs, parts + rest, at, hops);
            match s
            case Reached(p, h) => Grounded(fs, v) <==> Grounded(fs, Visits(fs, rest, p, h))
            case Enoent => !Grounded(fs, v)
            case Enotdir => !Grounded(fs, v)
            case _ => true
    decreases MAX_SYMLINK_HOPS - hops, |parts|
  {
    hide Grounded;
    var todo := parts + rest;
    if parts == [] {
      assert todo == rest;
    } else {
      assert todo[0] == parts[0] && todo[1..] == parts[1..] + rest;
      var v := Visits(fs, todo, at, hops);
      GroundedCons(fs, v[0], v[1..]);
      assert v == [v[0]] + v[1..];
      match parts[0]
      case Root => StrictGrounds(fs, parts[1..], rest, [], hops);
      case Up => StrictGrounds(fs, parts[1..], rest, Parent(at), hops);
      case Named(n) =>
        if IsDir(fs, at) {
          match Lstat(fs, at + [n])
          case IsLink(target) =>
            if hops + 1 <= MAX_SYMLINK_HOPS {
              StrictGrounds(fs, Parts(target), todo[1..], at, hops + 1);
              var inner := Strict(fs, Parts(target), at, hops + 1);
              if inner.Reached? { StrictGrounds(fs, parts[1..], rest, inner.at, inner.hops); }
            }
          case Exists => StrictGrounds(fs, parts[1..], rest, at + [n], hops);
          case _ =>
        }
    }
  }

  // Strict resolution arrives exactly on walks that are grounded and not barred, and the two
  // agree exactly on those that are grounded and on those that are barred.
  lemma LenientExtendsStrict(fs: Fs, parts: seq<Part>)
    ensures var s, v := Strict(fs, parts, [], 0), Visits(fs, parts, [], 0);
            && (s.Reached? <==> Grounded(fs, v) && !Barred(v, 0))
            && (s == Eloop || s == Eother ==> Barred(v, 0))
            && (Follow(fs, parts, [], 0) == (if s.Reached? then Some(s.at) else None) <==> Grounded(fs, v) || Barred(v, 0))
  {
    hide Barred, Visits;
    FollowsStrict(fs, parts, [], [], 0);
    StrictGrounds(fs, parts, [], [], 0);
    RefusedWhenBarred(fs, parts, [], 0);
    assert parts + [] == parts;
    var s := Strict(fs, parts, [], 0);
    if s.Reached? {
      assert Grounded(fs, Visits(fs, [], s.at, s.hops)) by { NothingLeft(fs, s.at, s.hops); }
    }
  }

  lemma NothingLeft(fs: Fs, at: Path, hops: nat)
    requires hops <= MAX_SYMLINK_HOPS
    ensures Visits(fs, [], at, hops) == []
  {
  }

  // Lenient resolution foresees strict resolution: once directories have been created so
  // that the strict one arrives somewhere, it arrives where the lenient one said before.
  lemma LenientForesees(before: Fs, after: Fs, parts: seq<Part>)
    requires DirectoriesCreated(before, after) && Strict(after, parts, [], 0).Reached?
    ensures Follow(before, parts, [], 0) == Some(Strict(after, parts, [], 0).at)
  {
    LenientExtendsStrict(after, parts);
    FollowAfterCreation(before, after, parts, [], 0);
  }

  // ".." after a regular file: the kernel refuses it, the lenient resolution goes on.
  lemma LenientStepsOutOfFiles(n: Name)
    ensures var fs := Fs(map[[] := Dir, [n] := File], {});
            var parts := [Root, Named(n), Up];
            Strict(fs, parts, [], 0) == Enotdir && Follow(fs, parts, [], 0) == Some([])
  {
    var fs := Fs(map[[] := Dir, [n] := File], {});
    assert [] + [n] == [n];
    assert !BelowFile(fs, [n]) by { assert [n][..0] == []; }
    assert [Root, Named(n), Up][1..] == [Named(n), Up] && [Named(n), Up][1..] == [Up] && [Up][1..] == [];
    assert !IsDir(fs, [n]);
    assert Strict(fs, [Up], [n], 0) == Enotdir;
    assert Strict(fs, [Named(n), Up], [], 0) == Enotdir;
    assert Follow(fs, [Up], [n], 0) == Some([]);
    assert Follow(fs, [Named(n), Up], [], 0) == Some([]);
  }

  // ----- loops

  // Following the parts, the link p is come by with no more hops than are allowed.
  predicate Meets(fs: Fs, todo: seq<Part>, at: Path, hops: nat, p: Path)
    requires hops <= MAX_SYMLINK_HOPS
    decreases MAX_SYMLINK_HOPS - hops, |todo|
  {
    todo != [] && match todo[0]
      case Root => Meets(fs, todo[1..], [], hops, p)
      case Up => Meets(fs, todo[1..], Parent(at), hops, p)
      case Named(n) =>
        at + [n] == p || match Lstat(fs, at + [n])
          case IsLink(target) => hops + 1 <= MAX_SYMLINK_HOPS && Meets(fs, Parts(target) + todo[1..], at, hops + 1, p)
          case Failed => false
          case _ => Meets(fs, todo[1..], at + [n], hops, p)
  }

  // A link that is met again while its own target is followed, over however many others.
  predicate Loops(fs: Fs, p: Path) {
    p != [] && Lstat(fs, p).IsLink? && Meets(fs, Parts(Lstat(fs, p).target), Parent(p), 0, p)
  }

  // A path that comes by a link on a loop is refused, wherever it starts and however it goes on.
  lemma {:induction false} LoopRefused(fs: Fs, todo: seq<Part>, rest: seq<Part>, at: Path, hops: nat, met: nat, p: Path)
    requires met <= hops <= MAX_SYMLINK_HOPS && Meets(fs, todo, at, met, p) && Loops(fs, p)
    ensures Follow(fs, todo + rest, at, hops) == None
    decreases MAX_SYMLINK_HOPS - hops, |todo|
  {
    hide Lstat, Parts;
    var all := todo + rest;
    assert all[0] == todo[0] && all[1..] == todo[1..] + rest;
    match todo[0]
    case Root => LoopRefused(fs, todo[1..], rest, [], hops, met, p);
    case Up => LoopRefused(fs, todo[1..], rest, Parent(at), hops, met, p);
    case Named(n) =>
      match Lstat(fs, at + [n])
      case IsLink(target) =>
        if hops + 1 <= MAX_SYMLINK_HOPS {
          if at + [n] == p {
            assert Parent(p) == at;
            LoopRefused(fs, Parts(target), all[1..], at, hops + 1, 0, p);
          } else {
            assert Parts(target) + todo[1..] + rest == Parts(target) + all[1..];
            LoopRefused(fs, Parts(target) + todo[1..], rest, at, hops + 1, met + 1, p);
          }
        }
      case Failed =>
      case _ => LoopRefused(fs, todo[1..], rest, at + [n], hops, met, p);
  }

  // Two links that name each other are such a loop.
  lemma TwoLinksLoop(fs: Fs, a: Name, b: Name)
    requires LegalName(a) && LegalName(b) && a != b
    requires Lstat(fs, [a]) == IsLink(Render([b])) && Lstat(fs, [b]) == IsLink(Render([a]))
    ensures Loops(fs, [a])
  {
    PartsOfRendered([a]);
    PartsOfRendered([b]);
    assert NamedParts([a]) == [Named(a)] && NamedParts([b]) == [Named(b)];
    assert [] + [a] == [a] && [] + [b] == [b];
    var back := Parts(Render([a])) + [];
    assert back == [Root, Named(a)] && back[1..] == [Named(a)];
    assert Meets(fs, [Named(a)], [], 1, [a]);
    assert Meets(fs, back, [], 1, [a]);
    assert [Named(b)][1..] == [];
    assert Meets(fs, [Named(b)], [], 0, [a]);
    assert [Root, Named(b)][1..] == [Named(b)];
    assert Meets(fs, [Root, Named(b)], [], 0, [a]);
  }
}
