/**
 Collision suffixes on file names (src/core/plan.rs): adding `-N` before the extension and
 taking exactly that suffix off again.
 */
module Names {
  import opened Basics
  import opened Order

  const DOT: byte := 46
  const DASH: byte := 45

  // Position of the last dot, or -1.
  function LastDot(c: seq<byte>): (i: int)
    ensures -1 <= i < |c|
    ensures i >= 0 ==> c[i] == DOT
    ensures forall j :: i < j < |c| ==> c[j] != DOT
  {
    if c == [] then -1
    else if c[|c| - 1] == DOT then |c| - 1
    else LastDot(c[..|c| - 1])
  }

  // The extension is the last dot and what follows it, unless that dot is the first byte.
  function SplitStemExt(c: seq<byte>): (r: (seq<byte>, seq<byte>))
    ensures r.0 + r.1 == c
  {
    var i := LastDot(c);
    if i <= 0 then (c, []) else (c[..i], c[i..])
  }

  function Decimal(n: nat): (d: seq<byte>)
    ensures |d| > 0 && forall c :: c in d ==> 48 <= c <= 57
  {
    if n < 10 then [48 + n] else Decimal(n / 10) + [48 + n % 10]
  }

  function Suffix(n: nat): seq<byte> {
    [DASH] + Decimal(n)
  }

  function AddSuffix(c: seq<byte>, n: nat): seq<byte> {
    var (stem, ext) := SplitStemExt(c);
    stem + Suffix(n) + ext
  }

  // None when the stem does not end in that very suffix.
  function StripSuffix(c: seq<byte>, n: nat): Option<seq<byte>> {
    var (stem, ext) := SplitStemExt(c);
    var cut := |stem| - |Suffix(n)|;
    if cut >= 0 && stem[cut..] == Suffix(n) then Some(stem[..cut] + ext) else None
  }

  lemma {:induction false} DecimalInjective(m: nat, n: nat)
    requires Decimal(m) == Decimal(n)
    ensures m == n
  {
    var d, e := Decimal(m), Decimal(n);
    if m >= 10 && n >= 10 {
      assert d[..|d| - 1] == Decimal(m / 10) && e[..|e| - 1] == Decimal(n / 10);
      DecimalInjective(m / 10, n / 10);
      assert d[|d| - 1] == e[|e| - 1];
    } else {
      assert |Decimal(m / 10)| > 0 && |Decimal(n / 10)| > 0;
    }
  }

  function DecimalValue(d: seq<byte>): int {
    if d == [] then 0 else 10 * DecimalValue(d[..|d| - 1]) + d[|d| - 1] - 48
  }

  // Decimal digits, most significant first, and no zero in front of another digit.
  lemma {:induction false} DecimalReads(n: nat)
    ensures DecimalValue(Decimal(n)) == n
    ensures n > 0 ==> Decimal(n)[0] != 48
  {
    if n >= 10 {
      DecimalReads(n / 10);
      assert Decimal(n)[..|Decimal(n)| - 1] == Decimal(n / 10);
      assert Decimal(n)[0] == Decimal(n / 10)[0];
    } else {
      assert [48 + n][..0] == [];
    }
  }

  lemma LastDotIs(c: seq<byte>, i: int)
    requires -1 <= i < |c| && (i >= 0 ==> c[i] == DOT) && forall j :: i < j < |c| ==> c[j] != DOT
    ensures LastDot(c) == i
  {
  }

  lemma SuffixOfExtended(stem: seq<byte>, ext: seq<byte>, n: nat)
    requires 46 !in ext && stem != []
    ensures AddSuffix(stem + [46] + ext, n) == stem + [45] + Decimal(n) + [46] + ext
  {
    var c := stem + [46] + ext;
    assert forall k :: 0 <= k < |ext| ==> ext[k] in ext;
    LastDotIs(c, |stem|);
    assert c[..|stem|] == stem && c[|stem|..] == [46] + ext;
    hide LastDot, Decimal;
  }

  lemma SuffixOfPlain(c: seq<byte>, n: nat)
    requires 46 !in c || (c[0] == 46 && 46 !in c[1..])
    ensures AddSuffix(c, n) == c + [45] + Decimal(n)
  {
    if 46 !in c {
      assert forall k :: 0 <= k < |c| ==> c[k] in c;
      LastDotIs(c, -1);
    } else {
      assert forall k :: 0 < k < |c| ==> c[k] == c[1..][k - 1] && c[1..][k - 1] in c[1..];
      LastDotIs(c, 0);
    }
    hide LastDot, Decimal;
  }

  // "-N" goes in front of the last dot, or at the end where there is none but in front.
  lemma SuffixGoesBeforeExtension(stem: seq<byte>, ext: seq<byte>, n: nat)
    requires 46 !in ext
    ensures stem != [] ==> AddSuffix(stem + [46] + ext, n) == stem + [45] + Decimal(n) + [46] + ext
    ensures AddSuffix(ext, n) == ext + [45] + Decimal(n)
    ensures AddSuffix([46] + ext, n) == [46] + ext + [45] + Decimal(n)
  {
    hide AddSuffix, Decimal;
    if stem != [] { SuffixOfExtended(stem, ext, n); }
    SuffixOfPlain(ext, n);
    assert ([46] + ext)[1..] == ext;
    SuffixOfPlain([46] + ext, n);
  }

  // A suffixed name has its dot where the suffix ends.
  lemma SplitOfSuffixed(c: seq<byte>, n: nat)
    ensures SplitStemExt(AddSuffix(c, n)) == (SplitStemExt(c).0 + Suffix(n), SplitStemExt(c).1)
  {
    var (stem, ext) := SplitStemExt(c);
    var s := AddSuffix(c, n);
    var i := LastDot(c);
    assert forall k :: 0 <= k < |Suffix(n)| ==> Suffix(n)[k] != DOT by {
      assert forall k :: 0 <= k < |Decimal(n)| ==> Decimal(n)[k] in Decimal(n);
    }
    if i <= 0 {
      assert s == c + Suffix(n);
      LastDotIs(s, i);
    } else {
      LastDotIs(s, i + |Suffix(n)|);
      assert s[..i + |Suffix(n)|] == stem + Suffix(n);
      assert s[i + |Suffix(n)|..] == ext;
    }
  }

  // Every name, dotless, dot-first or already ending in -N, comes back from any ordinal.
  lemma StripInvertsAdd(c: seq<byte>, n: nat)
    ensures StripSuffix(AddSuffix(c, n), n) == Some(c)
  {
    SplitOfSuffixed(c, n);
    var (stem, ext) := SplitStemExt(c);
    var suffixed := stem + Suffix(n);
    assert suffixed[|stem|..] == Suffix(n) && suffixed[..|stem|] == stem;
  }

  // A stem that stands alone keeps standing alone when its end is cut.
  lemma PlainSplit(base: seq<byte>, stem: seq<byte>)
    requires base <= stem && SplitStemExt(stem) == (stem, [])
    ensures SplitStemExt(base) == (base, [])
  {
    var i := LastDot(base);
    assert i >= 0 ==> base[i] == stem[i];
    assert LastDot(stem) <= 0;
  }

  // An extension keeps its place behind any stem, and is one only behind some stem.
  lemma ExtendedSplit(base: seq<byte>, ext: seq<byte>)
    requires ext != [] && ext[0] == DOT && forall j :: 0 < j < |ext| ==> ext[j] != DOT
    ensures SplitStemExt(base + ext) == if base != [] then (base, ext) else (ext, [])
  {
    LastDotIs(base + ext, |base|);
    if base == [] {
      assert base + ext == ext;
    } else {
      assert (base + ext)[..|base|] == base && (base + ext)[|base|..] == ext;
    }
  }

  lemma SplitIs(c: seq<byte>)
    ensures var (stem, ext) := SplitStemExt(c);
            && c == stem + ext
            && (ext == [] ==> SplitStemExt(stem) == (stem, []))
            && (ext != [] ==> stem != [] && ext[0] == DOT && forall j :: 0 < j < |ext| ==> ext[j] != DOT)
  {
    var i := LastDot(c);
    assert forall j :: 0 < j < |c| - i && i > 0 ==> c[i..][j] == c[i + j];
  }

  // What is taken off can be put back, unless the name was nothing but suffix and extension:
  // what is left then starts with its only dot and has no extension any more.
  lemma AddInvertsStrip(c: seq<byte>, n: nat)
    requires StripSuffix(c, n).Some?
    ensures AddSuffix(StripSuffix(c, n).value, n) == c <==> SplitStemExt(c).0 != Suffix(n) || SplitStemExt(c).1 == []
  {
    var (stem, ext) := SplitStemExt(c);
    var base := stem[..|stem| - |Suffix(n)|];
    SplitIs(c);
    assert stem == base + Suffix(n) && StripSuffix(c, n) == Some(base + ext);
    hide LastDot, SplitStemExt, StripSuffix, Decimal;
    if ext == [] {
      PlainSplit(base, stem);
      assert base + [] == base;
    } else {
      ExtendedSplit(base, ext);
      if base == [] {
        assert AddSuffix(base + ext, n)[0] == DOT && c[0] == DASH;
      }
    }
  }

  // Names of one collision set never meet: distinct ordinals, and the plain name, differ.
  lemma SuffixesDistinct(c: seq<byte>, m: nat, n: nat)
    ensures AddSuffix(c, m) == AddSuffix(c, n) ==> m == n
    ensures AddSuffix(c, n) != c
  {
    var (stem, ext) := SplitStemExt(c);
    if AddSuffix(c, m) == AddSuffix(c, n) {
      var a, b := AddSuffix(c, m), AddSuffix(c, n);
      assert |Suffix(m)| == |Suffix(n)|;
      assert a[|stem|..|stem| + |Suffix(m)|] == Suffix(m) && b[|stem|..|stem| + |Suffix(n)|] == Suffix(n);
      assert Suffix(m)[1..] == Decimal(m) && Suffix(n)[1..] == Decimal(n);
      DecimalInjective(m, n);
    }
    assert |AddSuffix(c, n)| == |c| + |Suffix(n)|;
  }
}
