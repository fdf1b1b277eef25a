/** The summary stored beside a held certificate. */
module Metadata {
  import opened Wrappers
  import opened Bytes
  import opened Certificates
  import opened Text
  import opened Marshal

  datatype ExitMeta = ExitMeta(tokenAddress: Option<string>, amount: Option<string>)

  datatype Meta = Meta(networkId: uint32, bridgeExits: seq<ExitMeta>, importedBridgeExits: seq<ExitMeta>)

  /** Big-endian bytes to a 64-bit number: of a longer string only the last eight bytes count. */
  method BytesToUint64(b: bytes) returns (result: uint64)
    ensures result == ValueBE(b) % TWO_TO_THE_64
  {
    if |b| == 0 {
      return 0;
    }
    var acc: nat := 0;
    var startIdx := if |b| > 8 then |b| - 8 else 0;
    var tail := b[startIdx..];
    for i := startIdx to |b|
      invariant acc == ValueBE(tail[..i - startIdx]) < Pow256(i - startIdx)
    {
      assert tail[..i - startIdx + 1][..i - startIdx] == tail[..i - startIdx];
      ValueBound(tail[..i - startIdx + 1]);
      // The shifted value has a zero low byte, so the bitwise or is a sum; see `ShiftFits` for the width.
      ShiftFits(acc, i - startIdx);
      acc := (acc * 256) % TWO_TO_THE_64 + b[i];
    }
    assert tail[..|b| - startIdx] == tail;
    TailIsModulo(b, startIdx);
    result := acc;
  }

  /** Fewer than eight bytes shifted by one more byte still fit in 64 bits. */
  lemma {:induction false} ShiftFits(acc: nat, n: nat)
    requires n < 8 && acc < Pow256(n)
    ensures (acc * 256) % TWO_TO_THE_64 == acc * 256
  {
    PowMonotone(n, 7);
    PowerValues();
    assert Pow256(8) == 256 * Pow256(7);
    assert acc * 256 < TWO_TO_THE_64;
  }

  lemma {:induction false} PowMonotone(m: nat, n: nat)
    requires m <= n
    ensures Pow256(m) <= Pow256(n)
  {
    if m < n {
      PowMonotone(m, n - 1);
    }
  }

  lemma {:induction false} TailIsModulo(b: bytes, start: nat)
    requires start == if |b| > 8 then |b| - 8 else 0
    ensures ValueBE(b[start..]) == ValueBE(b) % TWO_TO_THE_64
  {
    PowerValues();
    if |b| > 8 {
      SuffixIsModulo(b, 8);
    } else {
      assert b[0..] == b;
      ValueBound(b);
      PowMonotone(|b|, 8);
      ModUnique(ValueBE(b), TWO_TO_THE_64, 0, ValueBE(b));
    }
  }

  // ----- extractMetadata ------------------------------------------------------------------------

  function MetaOfExit(e: BridgeExit): ExitMeta {
    ExitMeta(
      if e.tokenInfo.Some? && e.tokenInfo.value.originTokenAddress.Some? && |e.tokenInfo.value.originTokenAddress.value| > 0
      then Some("0x" + HexPrint(e.tokenInfo.value.originTokenAddress.value)) else None,
      if e.amount.Some? && |e.amount.value| > 0
      then Some(FormatUint(ValueBE(e.amount.value) % TWO_TO_THE_64)) else None)
  }

  function MetaOfExits(es: seq<BridgeExit>): (ms: seq<ExitMeta>)
    ensures |ms| == |es|
  {
    seq(|es|, k requires 0 <= k < |es| => MetaOfExit(es[k]))
  }

  /** Imported exits without an exit inside are left out. */
  function PresentExits(es: seq<ImportedBridgeExit>): seq<BridgeExit> {
    if |es| == 0 then []
    else
      var front, last := PresentExits(es[..|es| - 1]), es[|es| - 1];
      if last.bridgeExit.Some? then front + [last.bridgeExit.value] else front
  }

  function MetaOf(c: Certificate): Meta {
    Meta(c.networkId, MetaOfExits(c.bridgeExits), MetaOfExits(PresentExits(c.importedBridgeExits)))
  }

  /** The texts of a summary can be read back: the address with its prefix, and the low 64 bits of the amount. */
  lemma SummaryTexts(e: BridgeExit)
    ensures var m := MetaOfExit(e);
            && (m.tokenAddress.Some? ==>
                  && |m.tokenAddress.value| >= 2 && m.tokenAddress.value[..2] == "0x"
                  && e.tokenInfo.Some? && e.tokenInfo.value.originTokenAddress.Some?
                  && HexStringToBytes(m.tokenAddress.value) == Success(e.tokenInfo.value.originTokenAddress.value))
            && (m.amount.Some? ==>
                  e.amount.Some? && ParseUint(m.amount.value, TWO_TO_THE_64) == Success(ValueBE(e.amount.value) % TWO_TO_THE_64))
  {
    var m := MetaOfExit(e);
    if m.tokenAddress.Some? {
      HexRoundTrip(e.tokenInfo.value.originTokenAddress.value);
    }
    if m.amount.Some? {
      ParsePrinted(ValueBE(e.amount.value) % TWO_TO_THE_64, TWO_TO_THE_64);
    }
  }

  method ExtractExit(e: BridgeExit) returns (m: ExitMeta)
    ensures m == MetaOfExit(e)
  {
    var tokenAddress: Option<string> := None;
    if e.tokenInfo.Some? && e.tokenInfo.value.originTokenAddress.Some? && |e.tokenInfo.value.originTokenAddress.value| > 0 {
      tokenAddress := Some("0x" + HexPrint(e.tokenInfo.value.originTokenAddress.value));
    }
    var amount: Option<string> := None;
    if e.amount.Some? && |e.amount.value| > 0 {
      var amountUint := BytesToUint64(e.amount.value);
      amount := Some(FormatUint(amountUint));
    }
    m := ExitMeta(tokenAddress, amount);
  }

  method ExtractMetadata(c: Certificate) returns (meta: Meta)
    ensures meta == MetaOf(c)
  {
    var bridgeExits: seq<ExitMeta> := [];
    for k := 0 to |c.bridgeExits|
      invariant bridgeExits == MetaOfExits(c.bridgeExits)[..k]
    {
      var m := ExtractExit(c.bridgeExits[k]);
      bridgeExits := bridgeExits + [m];
    }
    var importedExits := ExtractImported(c.importedBridgeExits);
    meta := Meta(c.networkId, bridgeExits, importedExits);
  }

  method ExtractImported(es: seq<ImportedBridgeExit>) returns (ms: seq<ExitMeta>)
    ensures ms == MetaOfExits(PresentExits(es))
  {
    ms := [];
    for k := 0 to |es|
      invariant ms == MetaOfExits(PresentExits(es[..k]))
    {
      assert es[..k + 1][..k] == es[..k];
      if es[k].bridgeExit.Some? {
        var m := ExtractExit(es[k].bridgeExit.value);
        ms := ms + [m];
      }
    }
    assert es[..|es|] == es;
  }
}
