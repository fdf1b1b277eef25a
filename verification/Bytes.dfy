/** Byte strings and the fixed-width big-endian encodings used by the certificate hash. */
module Bytes {
  type byte = b: int | 0 <= b < 256
  type bytes = seq<byte>

  type uint32 = n: int | 0 <= n < 0x1_0000_0000
  type uint64 = n: int | 0 <= n < 0x1_0000_0000_0000_0000

  const TWO_TO_THE_32: nat := 0x1_0000_0000
  const TWO_TO_THE_64: nat := 0x1_0000_0000_0000_0000

  function Pow256(n: nat): (p: nat)
    ensures p > 0
  {
    if n == 0 then 1 else 256 * Pow256(n - 1)
  }

  /** The number a byte string denotes, most significant byte first. */
  function ValueBE(b: bytes): nat {
    if |b| == 0 then 0 else 256 * ValueBE(b[..|b| - 1]) + b[|b| - 1]
  }

  /** The low `width` bytes of `n`, most significant byte first. */
  function EncodeBE(n: nat, width: nat): (b: bytes)
    ensures |b| == width
    decreases n, width
  {
    if width == 0 then [] else EncodeBE(n / 256, width - 1) + [n % 256]
  }

  function Zeros(n: nat): (b: bytes)
    ensures |b| == n
  {
    seq(n, _ => 0)
  }

  function Reverse(b: bytes): (r: bytes)
    ensures |r| == |b|
    ensures forall k :: 0 <= k < |b| ==> r[k] == b[|b| - 1 - k]
  {
    seq(|b|, k requires 0 <= k < |b| => b[|b| - 1 - k])
  }

  function Concat(parts: seq<bytes>): bytes {
    if |parts| == 0 then [] else Concat(parts[..|parts| - 1]) + parts[|parts| - 1]
  }

  /** Encoding a value and reading it back keeps it modulo 256^width. */
  lemma {:induction false} ValueOfEncode(n: nat, width: nat)
    ensures ValueBE(EncodeBE(n, width)) == n % Pow256(width)
    decreases width
  {
    if width == 0 {
    } else {
      var rest := EncodeBE(n / 256, width - 1);
      assert EncodeBE(n, width)[..width - 1] == rest;
      ValueOfEncode(n / 256, width - 1);
      ModStep(n, Pow256(width - 1));
    }
  }

  lemma ModStep(n: nat, p: nat)
    requires p > 0
    ensures n % (256 * p) == 256 * ((n / 256) % p) + n % 256
  {
    var q, m := n / 256 / p, (n / 256) % p;
    assert n / 256 == p * q + m;
    assert n == (256 * p) * q + (256 * m + n % 256) by {
      assert 256 * (p * q) == (256 * p) * q;
    }
    ModUnique(n, 256 * p, q, 256 * m + n % 256);
  }

  lemma ModUnique(n: nat, d: nat, q: int, r: nat)
    requires r < d
    requires n == d * q + r
    ensures n % d == r && n / d == q
  {
    var k := n / d - q;
    assert n == d * (n / d) + n % d;
    assert d * k == r - n % d by {
      assert d * k == d * (n / d) - d * q;
    }
    assert k >= 1 ==> d * k >= d;
    assert k <= -1 ==> d * k + d <= 0;
  }

  /** Re-encoding a byte string at another width drops or pads bytes on the left only. */
  lemma {:induction false} EncodeOfValue(b: bytes, width: nat)
    ensures EncodeBE(ValueBE(b), width)
         == if |b| >= width then b[|b| - width..] else Zeros(width - |b|) + b
    decreases width
  {
    if width == 0 {
    } else if |b| == 0 {
      EncodeOfValue(b, width - 1);
    } else {
      EncodeOfValue(b[..|b| - 1], width - 1);
    }
  }

  lemma {:induction false} SameLengthSameValue(a: bytes, b: bytes)
    requires |a| == |b| && ValueBE(a) == ValueBE(b)
    ensures a == b
  {
    EncodeOfValue(a, |a|);
    EncodeOfValue(b, |b|);
    assert a[0..] == a && b[0..] == b;
  }

  lemma {:induction false} EncodeInjective(m: nat, n: nat, width: nat)
    requires m < Pow256(width) && n < Pow256(width)
    requires EncodeBE(m, width) == EncodeBE(n, width)
    ensures m == n
  {
    ValueOfEncode(m, width);
    ValueOfEncode(n, width);
    ModUnique(m, Pow256(width), 0, m);
    ModUnique(n, Pow256(width), 0, n);
  }

  /** The last `width` bytes of a longer string hold its value modulo 256^width. */
  lemma {:induction false} SuffixIsModulo(b: bytes, width: nat)
    requires |b| >= width
    ensures ValueBE(b[|b| - width..]) == ValueBE(b) % Pow256(width)
  {
    EncodeOfValue(b, width);
    ValueOfEncode(ValueBE(b), width);
  }

  /** A byte string of at most `width` bytes denotes a number below 256^width. */
  lemma {:induction false} ValueBound(b: bytes)
    ensures ValueBE(b) < Pow256(|b|)
  {
    if |b| > 0 {
      ValueBound(b[..|b| - 1]);
    }
  }

  lemma {:induction false} LeadingZeros(k: nat, b: bytes)
    ensures ValueBE(Zeros(k) + b) == ValueBE(b)
    decreases k + |b|
  {
    var z := Zeros(k) + b;
    if |b| > 0 {
      assert z[..|z| - 1] == Zeros(k) + b[..|b| - 1];
      LeadingZeros(k, b[..|b| - 1]);
    } else if k > 0 {
      assert z[..|z| - 1] == Zeros(k - 1) + b;
      LeadingZeros(k - 1, b);
    }
  }

  lemma PowerValues()
    ensures Pow256(4) == 0x1_0000_0000
    ensures Pow256(8) == TWO_TO_THE_64
  {
    assert Pow256(2) == 0x1_0000;
    assert Pow256(4) == 256 * (256 * Pow256(2));
    assert Pow256(6) == 256 * (256 * Pow256(4));
    assert Pow256(8) == 256 * (256 * Pow256(6));
  }

  lemma SplitAt(a: bytes, x: bytes, b: bytes, y: bytes)
    requires |a| == |b|
    requires a + x == b + y
    ensures a == b && x == y
  {
    assert a == (a + x)[..|a|] && b == (b + y)[..|b|];
    assert x == (a + x)[|a|..] && y == (b + y)[|b|..];
  }

  lemma {:induction false} ConcatLength(parts: seq<bytes>, width: nat)
    requires forall k :: 0 <= k < |parts| ==> |parts[k]| == width
    ensures |Concat(parts)| == width * |parts|
  {
    if |parts| > 0 {
      ConcatLength(parts[..|parts| - 1], width);
    }
  }

  /** A concatenation of equally long parts determines the parts. */
  lemma {:induction false} ConcatInjective(xs: seq<bytes>, ys: seq<bytes>, width: nat)
    requires width > 0
    requires forall k :: 0 <= k < |xs| ==> |xs[k]| == width
    requires forall k :: 0 <= k < |ys| ==> |ys[k]| == width
    requires Concat(xs) == Concat(ys)
    ensures xs == ys
  {
    ConcatLength(xs, width);
    ConcatLength(ys, width);
    assert |xs| < |ys| ==> width * |xs| < width * |ys|;
    assert |ys| < |xs| ==> width * |ys| < width * |xs|;
    if |xs| > 0 {
      var n := |xs| - 1;
      ConcatLength(xs[..n], width);
      ConcatLength(ys[..n], width);
      SplitAt(Concat(xs[..n]), xs[n], Concat(ys[..n]), ys[n]);
      ConcatInjective(xs[..n], ys[..n], width);
    }
  }

  lemma ReverseInjective(a: bytes, b: bytes)
    requires Reverse(a) == Reverse(b)
    ensures a == b
  {
    assert |a| == |b|;
    forall k | 0 <= k < |a|
      ensures a[k] == b[k]
    {
      assert a[k] == Reverse(a)[|a| - 1 - k];
      assert b[k] == Reverse(b)[|b| - 1 - k];
    }
  }
}
