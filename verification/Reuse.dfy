/**
 Reading one entry's content, and reusing what an earlier index derived from it
 (src/core/indexer.rs, src/core/source_dir/reuse.rs).

 Hashing, image decoding, EXIF extraction, text rendering and what a path's name says about
 its kind are uninterpreted.
 */
module Reuse {
  import opened Basics
  import opened Order
  import opened Hex

  datatype MediaKind = Image | Raw | Video | Other

  datatype Kind = TextKind | EmptyKind | BinaryKind | ImageKind | RawKind | VideoKind

  datatype ExifSource = Original | Digitized | Plain

  datatype Flag = FtsTruncated | ImageOverCap | ReadError | Sparse | Shadowed | DecodeFailed | PaxUnparsed

  datatype Picture = Picture(width: nat, height: nat, phash: nat)

  datatype Taken = Taken(unix: int, source: ExifSource)

  datatype Env = Env(hash: seq<byte> -> seq<byte>, decode: seq<byte> -> Option<Picture>, exif: seq<byte> -> Option<Taken>,
                     lossy: seq<byte> -> Text, mediaKind: Text -> MediaKind, decodable: Text -> bool)

  datatype Options = Options(textCap: nat, mediaCap: nat)

  datatype Outcome = Outcome(hash: Option<seq<byte>>, kind: Kind, width: Option<nat>, height: Option<nat>,
                             phash: Option<nat>, exifUnix: Option<int>, exifSource: Option<ExifSource>,
                             flags: set<Flag>, text: Option<Text>, truncated: bool)

  const BINARY_PROBE := 8192

  // The search-time highlight marker, stripped from text.
  const MARKER: byte := 1

  function Cap(env: Env, path: Text, opts: Options): nat {
    if env.mediaKind(path) == Other then opts.textCap else opts.mediaCap
  }

  function Prefix(content: seq<byte>, n: nat): seq<byte> {
    if |content| <= n then content else content[..n]
  }

  function WithoutMarker(t: Text): Text {
    if t == [] then [] else (if t[0] == MARKER then [] else [t[0]]) + WithoutMarker(t[1..])
  }

  function Start(): Outcome {
    Outcome(None, BinaryKind, None, None, None, None, None, {}, None, false)
  }

  function SetExif(o: Outcome, taken: Option<Taken>): Outcome {
    if taken.None? then o else o.(exifUnix := Some(taken.value.unix), exifSource := Some(taken.value.source))
  }

  // What is derived from the whole content at once.
  function Fresh(env: Env, path: Text, opts: Options, content: seq<byte>): Outcome {
    var kept := Prefix(content, Cap(env, path, opts));
    var over := |content| > Cap(env, path, opts);
    var out := Start().(hash := Some(env.hash(content)));
    if content == [] then out.(kind := EmptyKind, text := Some([]))
    else match env.mediaKind(path)
      case Image =>
        var dated := SetExif(out.(kind := ImageKind), env.exif(kept));
        if !env.decodable(path) then dated
        else if over then dated.(flags := {ImageOverCap})
        else
          var picture := env.decode(kept);
          if picture.None? then dated.(flags := {DecodeFailed})
          else dated.(width := Some(picture.value.width), height := Some(picture.value.height),
                      phash := Some(picture.value.phash))
      case Raw => SetExif(out.(kind := RawKind), env.exif(kept))
      case Video => out.(kind := VideoKind)
      case Other =>
        if 0 in Prefix(kept, BINARY_PROBE) then out
        else out.(kind := TextKind, flags := if over then {FtsTruncated} else {}, truncated := over,
                  text := Some(WithoutMarker(env.lossy(kept))))
  }

  lemma {:induction false} WithoutMarkerReads(t: Text)
    ensures 1 !in WithoutMarker(t)
    ensures forall c: byte :: c != 1 ==> multiset(WithoutMarker(t))[c] == multiset(t)[c]
    ensures 1 !in t ==> WithoutMarker(t) == t
  {
    if t != [] {
      assert t == [t[0]] + t[1..];
      WithoutMarkerReads(t[1..]);
    }
  }

  // The row, field by field, in terms of the whole content: at most the first textCap bytes of
  // a text, and mediaCap of anything else, are looked at; the hash is of everything.
  lemma FreshReads(env: Env, path: Text, opts: Options, content: seq<byte>)
    ensures var o, media := Fresh(env, path, opts, content), env.mediaKind(path);
            var head := if |content| <= opts.textCap then content else content[..opts.textCap];
            var seen := if |content| <= opts.mediaCap then content else content[..opts.mediaCap];
            var probe := if |head| <= 8192 then head else head[..8192];
            && o.hash == Some(env.hash(content))
            && (o.kind == EmptyKind <==> content == [])
            && (o.kind == ImageKind <==> content != [] && media == Image)
            && (o.kind == RawKind <==> content != [] && media == Raw)
            && (o.kind == VideoKind <==> content != [] && media == Video)
            && (o.kind == TextKind <==> content != [] && media == Other && 0 !in probe)
            && (o.text.Some? <==> o.kind == TextKind || o.kind == EmptyKind)
            && (o.kind == EmptyKind ==> o.text == Some([]))
            && (o.kind == TextKind ==> o.text == Some(WithoutMarker(env.lossy(head))))
            && (o.truncated <==> o.kind == TextKind && |content| > opts.textCap)
            && (FtsTruncated in o.flags <==> o.truncated)
            && (ImageOverCap in o.flags <==> o.kind == ImageKind && env.decodable(path) && |content| > opts.mediaCap)
            && (DecodeFailed in o.flags <==>
                  o.kind == ImageKind && env.decodable(path) && |content| <= opts.mediaCap && env.decode(content).None?)
            && o.flags <= {FtsTruncated, ImageOverCap, DecodeFailed}
            && (o.phash.Some? <==>
                  o.kind == ImageKind && env.decodable(path) && |content| <= opts.mediaCap && env.decode(content).Some?)
            && (o.phash.Some? ==>
                  o.phash == Some(env.decode(content).value.phash) && o.width == Some(env.decode(content).value.width)
                  && o.height == Some(env.decode(content).value.height))
            && (o.phash.None? ==> o.width == None && o.height == None)
            && (o.exifUnix.Some? <==> (o.kind == ImageKind || o.kind == RawKind) && env.exif(seen).Some?)
            && (o.exifUnix.Some? ==>
                  o.exifUnix == Some(env.exif(seen).value.unix) && o.exifSource == Some(env.exif(seen).value.source))
            && (o.exifUnix.None? ==> o.exifSource == None)
  {
    hide WithoutMarker;
  }

  // ----- reading

  // One call of the reader, with the cancel flag as seen before and after it.
  datatype Turn = Turn(cancelledBefore: bool, got: Option<seq<byte>>, cancelledAfter: bool)

  datatype Stream = Stopped | Unreadable | Content(bytes: seq<byte>)

  // What a reader delivers over all its calls, after `read` bytes; a call that returns nothing ends it.
  function StreamOf(turns: seq<Turn>, read: seq<byte>): Stream
    decreases |turns|
  {
    if turns == [] then Content(read)
    else
      var t := turns[0];
      if t.cancelledBefore || t.cancelledAfter then Stopped
      else if t.got.None? then Unreadable
      else if t.got.value == [] then Content(read)
      else StreamOf(turns[1..], read + t.got.value)
  }

  // The call ends the reading: cancelled, failed or at the end.
  predicate Ends(t: Turn) {
    t.cancelledBefore || t.cancelledAfter || t.got.None? || t.got.value == []
  }

  function Delivered(turns: seq<Turn>): seq<byte> {
    if turns == [] then [] else (if turns[0].got.Some? then turns[0].got.value else []) + Delivered(turns[1..])
  }

  // The first call that ends the reading decides, and what came before it was delivered in order.
  lemma {:induction false} StreamReads(turns: seq<Turn>, read: seq<byte>, k: nat)
    requires k <= |turns| && (forall i :: 0 <= i < k ==> !Ends(turns[i])) && (k < |turns| ==> Ends(turns[k]))
    ensures StreamOf(turns, read) ==
              if k < |turns| && (turns[k].cancelledBefore || turns[k].cancelledAfter) then Stopped
              else if k < |turns| && turns[k].got.None? then Unreadable
              else Content(read + Delivered(turns[..k]))
    decreases |turns|
  {
    if k == 0 {
      assert turns[..0] == [] && read + [] == read;
    } else {
      var first, rest := turns[0].got.value, Delivered(turns[1..][..k - 1]);
      StreamReads(turns[1..], read + first, k - 1);
      assert turns[..k][1..] == turns[1..][..k - 1] && turns[..k][0] == turns[0];
      assert (read + first) + rest == read + (first + rest);
    }
  }

  datatype Processed = Cancelled | Row(outcome: Outcome, reused: bool)

  function ProcessedFrom(env: Env, path: Text, opts: Options, s: Stream, previous: Option<Outcome>): Processed {
    match s
    case Stopped => Cancelled
    case Unreadable => Row(Start().(flags := {ReadError}), false)
    case Content(c) =>
      if previous.Some? && previous.value.hash == Some(env.hash(c)) then Row(previous.value, true)
      else Row(Fresh(env, path, opts, c), false)
  }

  // Nothing is known of an entry that cannot be read, not even its hash; and no earlier row
  // stands in for it.
  lemma UnreadableReads(env: Env, path: Text, opts: Options, previous: Option<Outcome>)
    ensures var p := ProcessedFrom(env, path, opts, Unreadable, previous);
            && p.Row? && !p.reused && p.outcome.flags == {ReadError} && p.outcome.kind == BinaryKind
            && p.outcome.hash == None && p.outcome.text == None && !p.outcome.truncated
            && p.outcome.width == None && p.outcome.height == None && p.outcome.phash == None
            && p.outcome.exifUnix == None && p.outcome.exifSource == None
  {
  }

  // Keeps the first `cap` bytes of everything it is given.
  function Keep(kept: seq<byte>, cap: nat, chunk: seq<byte>): seq<byte> {
    if |kept| < cap then kept + Prefix(chunk, cap - |kept|) else kept
  }

  lemma KeepIsPrefix(read: seq<byte>, cap: nat, chunk: seq<byte>)
    ensures Keep(Prefix(read, cap), cap, chunk) == Prefix(read + chunk, cap)
  {
    var all := read + chunk;
    if |read| < cap {
      assert Prefix(read, cap) == read;
      if |chunk| > cap - |read| { assert all[..cap] == read + chunk[..cap - |read|]; }
    } else if |all| > cap {
      assert all[..cap] == read[..cap];
    }
  }

  // Whatever the chunks, the row depends on the bytes: those retained are the first `cap`, the
  // hash covers all of them, and an earlier result is used only when the hash agrees.
  method ProcessReader(env: Env, path: Text, opts: Options, turns: seq<Turn>, previous: Option<Outcome>)
    returns (p: Processed)
    ensures p == ProcessedFrom(env, path, opts, StreamOf(turns, []), previous)
  {
    var cap := Cap(env, path, opts);
    var hashed: seq<byte>, kept: seq<byte>, total := [], [], 0;
    var i := 0;
    while i < |turns|
      invariant 0 <= i <= |turns|
      invariant StreamOf(turns, []) == StreamOf(turns[i..], hashed)
      invariant kept == Prefix(hashed, cap) && total == |hashed|
    {
      var t := turns[i];
      assert turns[i..][0] == t && turns[i..][1..] == turns[i + 1..];
      if t.cancelledBefore || t.cancelledAfter { return Cancelled; }
      if t.got.None? { return Row(Start().(flags := {ReadError}), false); }
      if t.got.value == [] { break; }
      KeepIsPrefix(hashed, cap, t.got.value);
      hashed := hashed + t.got.value;
      total := total + |t.got.value|;
      kept := Keep(kept, cap, t.got.value);
      i := i + 1;
    }
    var hash := env.hash(hashed);
    if previous.Some? && previous.value.hash == Some(hash) { return Row(previous.value, true); }
    var out := Classify(env, path, kept, total, cap, hash, hashed);
    assert out == Fresh(env, path, opts, hashed);
    return Row(out, false);
  }

  // The row from what was retained, the byte count and the hash.
  method Classify(env: Env, path: Text, kept: seq<byte>, total: nat, cap: nat, hash: seq<byte>, ghost content: seq<byte>)
    returns (out: Outcome)
    requires total == |content| && kept == Prefix(content, cap) && hash == env.hash(content)
    ensures forall opts :: Cap(env, path, opts) == cap ==> out == Fresh(env, path, opts, content)
  {
    out := Start().(hash := Some(hash));
    if total == 0 { return out.(kind := EmptyKind, text := Some([])); }
    var over := total > cap;
    match env.mediaKind(path)
    case Image =>
      out := SetExif(out.(kind := ImageKind), env.exif(kept));
      if env.decodable(path) {
        if over {
          out := out.(flags := {ImageOverCap});
        } else {
          match env.decode(kept)
          case Some(x) => out := out.(width := Some(x.width), height := Some(x.height), phash := Some(x.phash));
          case None => out := out.(flags := {DecodeFailed});
        }
      }
    case Raw => out := SetExif(out.(kind := RawKind), env.exif(kept));
    case Video => out := out.(kind := VideoKind);
    case Other =>
      if 0 !in Prefix(kept, BINARY_PROBE) {
        out := out.(kind := TextKind);
        if over { out := out.(flags := {FtsTruncated}, truncated := true); }
        out := out.(text := Some(WithoutMarker(env.lossy(kept))));
      }
  }

  // ----- the stored row

  const TWO_63 := 0x8000_0000_0000_0000

  // SQLite keeps signed 64-bit numbers and has no empty text column here.
  datatype StoredRow = StoredRow(kind: string, hash: Option<seq<byte>>, width: Option<nat>, height: Option<nat>,
                                 phash: Option<int>, exifUnix: Option<int>, exifSource: Option<string>,
                                 flags: set<Flag>, content: Text)

  function KindName(k: Kind): string {
    match k
    case TextKind => "text"
    case EmptyKind => "empty"
    case BinaryKind => "binary"
    case ImageKind => "image"
    case RawKind => "raw"
    case VideoKind => "video"
  }

  function SourceName(s: ExifSource): string {
    match s
    case Original => "DateTimeOriginal"
    case Digitized => "DateTimeDigitized"
    case Plain => "DateTime"
  }

  function Signed(n: nat): int {
    if n < TWO_63 then n else n - 2 * TWO_63
  }

  function Unsigned(n: int): nat {
    if n >= 0 then n else if n + 2 * TWO_63 >= 0 then n + 2 * TWO_63 else 0
  }

  function RowOf(o: Outcome): StoredRow {
    StoredRow(KindName(o.kind), o.hash, o.width, o.height,
              if o.phash.Some? then Some(Signed(o.phash.value)) else None,
              o.exifUnix, if o.exifSource.Some? then Some(SourceName(o.exifSource.value)) else None,
              o.flags, if o.text.Some? then o.text.value else [])
  }

  function KindNamed(s: string): Option<Kind> {
    if s == "text" then Some(TextKind)
    else if s == "empty" then Some(EmptyKind)
    else if s == "binary" then Some(BinaryKind)
    else if s == "image" then Some(ImageKind)
    else if s == "raw" then Some(RawKind)
    else if s == "video" then Some(VideoKind)
    else None
  }

  function SourceNamed(s: string): Option<ExifSource> {
    if s == "DateTimeOriginal" then Some(Original)
    else if s == "DateTimeDigitized" then Some(Digitized)
    else if s == "DateTime" then Some(Plain)
    else None
  }

  // Anything unknown, unhashed or once unreadable is not offered for reuse.
  function PreviousOutcome(row: StoredRow): Option<Outcome> {
    var kind := KindNamed(row.kind);
    if kind.None? || row.hash.None? || |row.hash.value| != 32 then None
    else if row.exifSource.Some? && SourceNamed(row.exifSource.value).None? then None
    else if !(row.flags <= {FtsTruncated, ImageOverCap}) then None
    else
      var source := if row.exifSource.Some? then SourceNamed(row.exifSource.value) else None;
      Some(Outcome(row.hash, kind.value, row.width, row.height,
                   if row.phash.Some? then Some(Unsigned(row.phash.value)) else None,
                   row.exifUnix, source, row.flags, if kind.value == TextKind || kind.value == EmptyKind then Some(row.content) else None,
                   FtsTruncated in row.flags))
  }

  // Hashes have 32 bytes and perceptual hashes fit 64 bits.
  ghost predicate Sane(env: Env) {
    (forall c :: |env.hash(c)| == 32)
    && (forall c :: env.decode(c).Some? ==> env.decode(c).value.phash < 2 * TWO_63)
  }

  // A stored row gives back what it was written from, unless the image could not be decoded.
  lemma StoredRowRoundTrip(env: Env, path: Text, opts: Options, content: seq<byte>)
    requires Sane(env)
    ensures var o := Fresh(env, path, opts, content);
            PreviousOutcome(RowOf(o)) == if DecodeFailed in o.flags then None else Some(o)
  {
    hide WithoutMarker, Prefix, Cap;
    var o := Fresh(env, path, opts, content);
    assert KindNamed(KindName(o.kind)) == Some(o.kind);
    assert o.exifSource.Some? ==> SourceNamed(SourceName(o.exifSource.value)) == Some(o.exifSource.value);
    assert |env.hash(content)| == 32;
    assert o.phash.Some? ==> Unsigned(Signed(o.phash.value)) == o.phash.value;
  }

  // Reuse refines fresh processing: with a row written for the same path under the same
  // options and no hash collision between the two contents, a read that may reuse it gives
  // exactly the row a fresh read gives.
  lemma ReuseRefinesFresh(env: Env, path: Text, opts: Options, before: seq<byte>, turns: seq<Turn>)
    requires Sane(env)
    requires StreamOf(turns, []).Content? && env.hash(StreamOf(turns, []).bytes) == env.hash(before)
             ==> StreamOf(turns, []).bytes == before
    ensures var previous := PreviousOutcome(RowOf(Fresh(env, path, opts, before)));
            var with := ProcessedFrom(env, path, opts, StreamOf(turns, []), previous);
            var without := ProcessedFrom(env, path, opts, StreamOf(turns, []), None);
            with.Cancelled? == without.Cancelled? && (with.Row? ==> with.outcome == without.outcome)
  {
    StoredRowRoundTrip(env, path, opts, before);
    hide WithoutMarker, Prefix, Cap, PreviousOutcome, RowOf;
  }
}
