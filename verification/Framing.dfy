/**
 Length-framed preimages (src/core/plan.rs): every element is preceded by its length as
 eight little-endian bytes, so a list of byte strings can be read back from its framing.
 */
module Framing {
  import opened Basics
  import opened Order

  const TWO_64 := 0x1_0000_0000_0000_0000

  // The low `width` bytes of n, least significant first.
  function LittleEndian(n: nat, width: nat): (b: seq<byte>)
    ensures |b| == width
  {
    if width == 0 then [] else [n % 256] + LittleEndian(n / 256, width - 1)
  }

  function FromLittleEndian(b: seq<byte>): nat {
    if b == [] then 0 else b[0] + 256 * FromLittleEndian(b[1..])
  }

  function Power256(k: nat): nat {
    if k == 0 then 1 else 256 * Power256(k - 1)
  }

  lemma {:induction false} LittleEndianRoundTrip(n: nat, width: nat)
    requires n < Power256(width)
    ensures FromLittleEndian(LittleEndian(n, width)) == n
  {
    if width > 0 {
      LittleEndianRoundTrip(n / 256, width - 1);
    }
  }

  // Each further byte weighs 256 times the one before.
  lemma {:induction false} LaterBytesWeighMore(b: seq<byte>, x: byte)
    ensures FromLittleEndian(b + [x]) == FromLittleEndian(b) + x * Power256(|b|)
  {
    var all := b + [x];
    if b == [] {
      assert all[1..] == [];
    } else {
      LaterBytesWeighMore(b[1..], x);
      assert all[1..] == b[1..] + [x];
      assert 256 * (x * Power256(|b| - 1)) == x * (256 * Power256(|b| - 1));
    }
  }

  lemma EightBytes()
    ensures Power256(8) == TWO_64
  {
    assert Power256(4) == 0x1_0000_0000;
    assert Power256(6) == 0x1_0000_0000_0000;
  }

  // An unsigned 32-bit or 64-bit number as a 64-bit word.
  function Le8(n: nat): seq<byte> {
    LittleEndian(n, 8)
  }

  // A signed 64-bit number in two's complement.
  function Le8Signed(n: int): seq<byte> {
    LittleEndian(n % TWO_64, 8)
  }

  lemma Le8Injective(m: nat, n: nat)
    requires m < TWO_64 && n < TWO_64 && Le8(m) == Le8(n)
    ensures m == n
  {
    EightBytes();
    LittleEndianRoundTrip(m, 8);
    LittleEndianRoundTrip(n, 8);
  }

  // Two's complement: a negative number is written as 2^64 more.
  lemma SignedIsUnsigned(n: int)
    requires IsInt64(n)
    ensures Le8Signed(n) == Le8(if n >= 0 then n else n + TWO_64)
  {
  }

  predicate IsInt64(n: int) {
    -0x8000_0000_0000_0000 <= n < 0x8000_0000_0000_0000
  }

  lemma Le8SignedInjective(m: int, n: int)
    requires IsInt64(m) && IsInt64(n) && Le8Signed(m) == Le8Signed(n)
    ensures m == n
  {
    Le8Injective(m % TWO_64, n % TWO_64);
  }

  function Framed(elements: seq<seq<byte>>): seq<byte> {
    if elements == [] then [] else Le8(|elements[0]|) + elements[0] + Framed(elements[1..])
  }

  method BuildFramed(elements: seq<seq<byte>>) returns (out: seq<byte>)
    ensures out == Framed(elements)
  {
    out := [];
    for k := 0 to |elements|
      invariant out + Framed(elements[k..]) == Framed(elements)
    {
      assert elements[k..][0] == elements[k] && elements[k..][1..] == elements[k + 1..];
      assert out + (Le8(|elements[k]|) + elements[k] + Framed(elements[k + 1..]))
          == (out + Le8(|elements[k]|) + elements[k]) + Framed(elements[k + 1..]);
      out := out + Le8(|elements[k]|) + elements[k];
    }
    assert elements[|elements|..] == [];
  }

  // One element is its length and itself; a longer list is framed piece by piece.
  lemma {:induction false} FramedAdds(a: seq<seq<byte>>, b: seq<seq<byte>>, e: seq<byte>)
    ensures Framed([e]) == Le8(|e|) + e
    ensures Framed(a + b) == Framed(a) + Framed(b)
  {
    assert [e][1..] == [] && Framed([e]) == Le8(|e|) + e + [];
    if a == [] {
      assert a + b == b;
    } else {
      FramedAdds(a[1..], b, e);
      assert (a + b)[1..] == a[1..] + b && (a + b)[0] == a[0];
    }
  }

  // The reader of a framing.
  function Unframed(s: seq<byte>): Option<seq<seq<byte>>>
    decreases |s|
  {
    if s == [] then Some([])
    else if |s| < 8 then None
    else
      var n := FromLittleEndian(s[..8]);
      if |s| < 8 + n then None
      else
        var rest := Unframed(s[8 + n..]);
        if rest.None? then None else Some([s[8..8 + n]] + rest.value)
  }

  ghost predicate Framable(elements: seq<seq<byte>>) {
    forall e :: e in elements ==> |e| < TWO_64
  }

  lemma {:induction false} UnframedInvertsFramed(elements: seq<seq<byte>>)
    requires Framable(elements)
    ensures Unframed(Framed(elements)) == Some(elements)
  {
    if elements != [] {
      var e, rest := elements[0], elements[1..];
      var s := Framed(elements);
      assert e in elements && forall x :: x in rest ==> x in elements;
      UnframedInvertsFramed(rest);
      EightBytes();
      LittleEndianRoundTrip(|e|, 8);
      assert s[..8] == Le8(|e|) && s[8..8 + |e|] == e && s[8 + |e|..] == Framed(rest);
      assert elements == [e] + rest;
    }
  }

  lemma FramedInjective(a: seq<seq<byte>>, b: seq<seq<byte>>)
    requires Framable(a) && Framable(b) && Framed(a) == Framed(b)
    ensures a == b
  {
    UnframedInvertsFramed(a);
    UnframedInvertsFramed(b);
  }
}
