/** Hexadecimal text and the 32-byte global index. */
module Marshal {
  import opened Wrappers
  import opened Bytes

  // ----- Hexadecimal ----------------------------------------------------------------------------

  predicate IsHex(c: char) {
    '0' <= c <= '9' || 'a' <= c <= 'f' || 'A' <= c <= 'F'
  }

  function Nibble(c: char): (n: nat)
    requires IsHex(c)
    ensures n < 16
  {
    if c <= '9' then (c - '0') as nat
    else if c <= 'F' then (c - 'A') as nat + 10
    else (c - 'a') as nat + 10
  }

  function HexChar(n: nat): (c: char)
    requires n < 16
    ensures IsHex(c) && Nibble(c) == n && c == "0123456789abcdef"[n]
  {
    if n < 10 then '0' + n as char else 'a' + (n - 10) as char
  }

  predicate AllHex(s: string) {
    forall k :: 0 <= k < |s| ==> IsHex(s[k])
  }

  /** `hex.DecodeString`. */
  function DecodeString(s: string): Result<bytes> {
    if |s| == 0 then Success([])
    else if |s| == 1 then Failure
    else
      var n := |s|;
      var front :- DecodeString(s[..n - 2]);
      if IsHex(s[n - 2]) && IsHex(s[n - 1]) then Success(front + [16 * Nibble(s[n - 2]) + Nibble(s[n - 1])])
      else Failure
  }

  function TrimPrefix0x(s: string): string {
    if |s| >= 2 && s[..2] == "0x" then s[2..] else s
  }

  /** Hexadecimal text with or without "0x"; an odd number of digits gets a leading zero. */
  function HexStringToBytes(hexStr: string): Result<bytes> {
    if hexStr == "" || hexStr == "null" then Failure
    else
      var t := TrimPrefix0x(hexStr);
      DecodeString(if |t| % 2 == 1 then ['0'] + t else t)
  }

  function HexByte(n: byte): (s: string)
    ensures |s| == 2 && IsHex(s[0]) && IsHex(s[1]) && 16 * Nibble(s[0]) + Nibble(s[1]) == n
  {
    [HexChar(n / 16), HexChar(n % 16)]
  }

  /** `fmt.Sprintf("%x", b)`. */
  function HexPrint(b: bytes): (s: string)
    ensures |s| == 2 * |b| && AllHex(s)
  {
    if |b| == 0 then ""
    else HexPrint(b[..|b| - 1]) + HexByte(b[|b| - 1])
  }

  function HexValue(s: string): nat
    requires AllHex(s)
  {
    if |s| == 0 then 0 else 16 * HexValue(s[..|s| - 1]) + Nibble(s[|s| - 1])
  }

  lemma PrefixRemoved(s: string)
    ensures TrimPrefix0x("0x" + s) == s
    ensures |s| >= 2 && IsHex(s[1]) ==> TrimPrefix0x(s) == s
  {
    assert ("0x" + s)[..2] == "0x" && ("0x" + s)[2..] == s;
    if |s| >= 2 && IsHex(s[1]) {
      assert s[..2][1] != "0x"[1];
    }
  }

  lemma {:induction false} AcceptsBothSpellings(s: string, n: nat)
    requires |s| == 2 * n > 0 && AllHex(s)
    ensures HexStringToBytes(s) == DecodeString(s)
    ensures HexStringToBytes("0x" + s) == DecodeString(s)
  {
    PrefixRemoved(s);
    AcceptsEven(s, s);
    AcceptsEven("0x" + s, s);
  }

  lemma {:induction false} AcceptsEven(hexStr: string, digits: string)
    requires TrimPrefix0x(hexStr) == digits
    requires |digits| > 0 && |digits| % 2 == 0 && AllHex(digits)
    ensures HexStringToBytes(hexStr) == DecodeString(digits)
  {
    assert IsHex(digits[0]);
  }

  /** What decoding means for the digits `s` of `n` bytes: they are all accepted, or nothing is. */
  predicate Decodes(s: string, n: nat) {
    && (DecodeString(s).Success? <==> AllHex(s))
    && (AllHex(s) ==> |DecodeString(s).value| == n && ValueBE(DecodeString(s).value) == HexValue(s))
  }

  lemma DecodesPair(front: string, x: char, y: char, n: nat)
    requires Decodes(front, n)
    ensures Decodes(front + [x, y], n + 1)
  {
    var s := front + [x, y];
    assert s[..|s| - 2] == front && s[|s| - 2] == x && s[|s| - 1] == y;
    assert AllHex(s) <==> AllHex(front) && IsHex(x) && IsHex(y);
    if AllHex(s) {
      HexValueOfPair(front, x, y);
      var d, e := DecodeString(s).value, DecodeString(front).value;
      assert d == e + [16 * Nibble(x) + Nibble(y)] && d[..|d| - 1] == e;
    }
  }

  lemma {:induction false} DecodeMeaning(s: string, n: nat)
    requires |s| == 2 * n
    ensures Decodes(s, n)
    decreases n
  {
    if n > 0 {
      var front, x, y := s[..|s| - 2], s[|s| - 2], s[|s| - 1];
      assert s == front + [x, y];
      DecodeMeaning(front, n - 1);
      DecodesPair(front, x, y, n - 1);
    }
  }

  lemma {:induction false} HexValueOfPair(front: string, x: char, y: char)
    requires AllHex(front + [x, y]) && AllHex(front) && IsHex(x) && IsHex(y)
    ensures HexValue(front + [x, y]) == 256 * HexValue(front) + (16 * Nibble(x) + Nibble(y))
  {
    var s := front + [x, y];
    var t := front + [x];
    assert s[..|s| - 1] == t && t[..|t| - 1] == front;
    assert AllHex(t);
  }

  lemma {:induction false} LeadingZeroDigit(s: string)
    requires AllHex(s)
    ensures AllHex(['0'] + s) && HexValue(['0'] + s) == HexValue(s)
  {
    var z := ['0'] + s;
    if |s| > 0 {
      assert z[..|z| - 1] == ['0'] + s[..|s| - 1];
      LeadingZeroDigit(s[..|s| - 1]);
    } else {
      assert z[..0] == "";
    }
  }

  /** What is accepted, and that the number is kept, an odd number of digits included. */
  lemma HexMeaning(hexStr: string)
    ensures HexStringToBytes(hexStr).Success? <==> hexStr != "" && AllHex(TrimPrefix0x(hexStr))
    ensures HexStringToBytes(hexStr).Success? ==>
              var b := HexStringToBytes(hexStr).value;
              && |b| == (|TrimPrefix0x(hexStr)| + 1) / 2
              && ValueBE(b) == HexValue(TrimPrefix0x(hexStr))
  {
    var t := TrimPrefix0x(hexStr);
    if hexStr == "null" {
      assert !IsHex(t[0]);
    } else if |t| % 2 == 1 {
      DecodeMeaning(['0'] + t, (|t| + 1) / 2);
      if AllHex(t) {
        LeadingZeroDigit(t);
      } else {
        var k :| 0 <= k < |t| && !IsHex(t[k]);
        assert !IsHex((['0'] + t)[k + 1]);
      }
    } else {
      DecodeMeaning(t, |t| / 2);
    }
  }

  lemma {:induction false} PrintedValue(b: bytes)
    ensures HexValue(HexPrint(b)) == ValueBE(b)
  {
    if |b| > 0 {
      var front, last := b[..|b| - 1], b[|b| - 1];
      var pair := HexByte(last);
      PrintedValue(front);
      assert HexPrint(b) == HexPrint(front) + [pair[0], pair[1]];
      HexValueOfPair(HexPrint(front), pair[0], pair[1]);
    }
  }

  lemma {:induction false} DecodePrinted(b: bytes)
    ensures DecodeString(HexPrint(b)) == Success(b)
  {
    DecodeMeaning(HexPrint(b), |b|);
    PrintedValue(b);
    SameLengthSameValue(DecodeString(HexPrint(b)).value, b);
  }

  /** Decoding inverts printing for every nonempty byte string, with or without the prefix. */
  lemma {:induction false} HexRoundTrip(b: bytes)
    requires |b| > 0
    ensures HexStringToBytes(HexPrint(b)) == HexStringToBytes("0x" + HexPrint(b)) == Success(b)
  {
    DecodePrinted(b);
    AcceptsBothSpellings(HexPrint(b), |b|);
  }

  // ----- Global index ---------------------------------------------------------------------------

  function LE32(n: uint32): (b: bytes)
    ensures |b| == 4
  {
    [n % 256, n / 256 % 256, n / 256 / 256 % 256, n / 256 / 256 / 256 % 256]
  }

  /** What `generateCertificateId` feeds to the hash after its own reversal. */
  function HashedIndex(mainnet: bool, rollup: uint32, leaf: uint32): (b: bytes)
    ensures |b| == 32
  {
    LE32(leaf) + LE32(rollup) + [if mainnet then 1 else 0] + Zeros(23)
  }

  method PutUint32(buffer: array<byte>, start: nat, n: uint32)
    requires start + 4 <= buffer.Length
    modifies buffer
    ensures buffer[..] == old(buffer[..start]) + LE32(n) + old(buffer[start + 4..])
  {
    buffer[start] := n % 256;
    buffer[start + 1] := n / 256 % 256;
    buffer[start + 2] := n / 256 / 256 % 256;
    buffer[start + 3] := n / 256 / 256 / 256 % 256;
  }

  method ReverseInPlace(buffer: array<byte>)
    requires buffer.Length == 32
    modifies buffer
    ensures buffer[..] == Reverse(old(buffer[..]))
  {
    for i := 0 to 16
      invariant forall k :: 0 <= k < i || 32 - i <= k < 32 ==> buffer[k] == old(buffer[31 - k])
      invariant forall k :: i <= k < 32 - i ==> buffer[k] == old(buffer[k])
    {
      buffer[i], buffer[31 - i] := buffer[31 - i], buffer[i];
    }
  }

  method EncodeGlobalIndex(mainnetFlag: bool, rollupIndex: uint32, leafIndex: uint32) returns (index: bytes)
    ensures |index| == 32
    ensures Reverse(index) == HashedIndex(mainnetFlag, rollupIndex, leafIndex)
  {
    var buffer := new byte[32](_ => 0);
    assert buffer[..] == Zeros(32);
    PutUint32(buffer, 0, leafIndex);
    assert buffer[..] == LE32(leafIndex) + Zeros(28);
    PutUint32(buffer, 4, rollupIndex);
    assert buffer[..] == LE32(leafIndex) + LE32(rollupIndex) + Zeros(24);
    if mainnetFlag {
      // Byte 8 is still zero, so setting its lowest bit makes it one.
      buffer[8] := 1;
    }
    assert buffer[..] == HashedIndex(mainnetFlag, rollupIndex, leafIndex);
    ReverseInPlace(buffer);
    index := buffer[..];
  }

  lemma IndexParts(mainnet: bool, rollup: uint32, leaf: uint32)
    ensures var b := HashedIndex(mainnet, rollup, leaf);
            b[..4] == LE32(leaf) && b[4..8] == LE32(rollup) && (b[8] == 1 <==> mainnet)
  {
    var a, c, d := LE32(leaf), LE32(rollup), [if mainnet then 1 else 0] + Zeros(23);
    assert HashedIndex(mainnet, rollup, leaf) == a + (c + d);
    assert (a + (c + d))[..4] == a && (a + (c + d))[4..8] == c && (a + (c + d))[8] == d[0];
  }

  /** Four little-endian bytes: reversed, they are the number in big-endian order. */
  lemma LE32Value(n: uint32)
    ensures ValueBE(Reverse(LE32(n))) == n
  {
    var b := Reverse(LE32(n));
    var w: int, x: int, y: int := b[0], b[1], b[2];
    assert b[..3][..2][..1] == [b[0]] && b[..3][..2] == [b[0], b[1]] && b[..3] == [b[0], b[1], b[2]];
    assert [b[0]][..0] == [];
    assert ValueBE([b[0]]) == w;
    assert [b[0], b[1]][..1] == [b[0]];
    assert ValueBE([b[0], b[1]]) == 256 * w + x;
    assert [b[0], b[1], b[2]][..2] == [b[0], b[1]];
    assert ValueBE([b[0], b[1], b[2]]) == 256 * (256 * w + x) + y;
  }

  /** The hashed bytes: leaf index and rollup index in little-endian order, the flag, and zeros. */
  lemma IndexBytes(mainnet: bool, rollup: uint32, leaf: uint32)
    ensures var b := HashedIndex(mainnet, rollup, leaf);
            && ValueBE(Reverse(b[..4])) == leaf && ValueBE(Reverse(b[4..8])) == rollup
            && b[8] == (if mainnet then 1 else 0) && forall k :: 9 <= k < 32 ==> b[k] == 0
  {
    IndexParts(mainnet, rollup, leaf);
    LE32Value(leaf);
    LE32Value(rollup);
  }

  /** The hashed bytes determine the flag, the rollup index and the leaf index. */
  lemma IndexRecoverable(m: bool, r: uint32, l: uint32, m': bool, r': uint32, l': uint32)
    requires HashedIndex(m, r, l) == HashedIndex(m', r', l')
    ensures m == m' && r == r' && l == l'
  {
    IndexParts(m, r, l);
    IndexParts(m', r', l');
    LE32Injective(l, l');
    LE32Injective(r, r');
  }

  lemma LE32Injective(n: uint32, m: uint32)
    requires LE32(n) == LE32(m)
    ensures n == m
  {
    var a, b := LE32(n), LE32(m);
    assert a[3] == b[3] && n / 256 / 256 / 256 == m / 256 / 256 / 256;
    assert a[2] == b[2] && n / 256 / 256 == m / 256 / 256;
    assert a[1] == b[1] && n / 256 == m / 256;
    assert a[0] == b[0];
  }
}
