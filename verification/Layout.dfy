/**
 Where each field of a message stands in the bytes that are hashed.

 What the id commits to is the subject of `Commitment`; here the hash inputs are read back at fixed
 offsets, field by field.
 */
module Layout {
  import opened Wrappers
  import opened Bytes
  import opened Certificates
  import opened Identity

  lemma Seven(a: bytes, b: bytes, c: bytes, d: bytes, e: bytes, f: bytes, g: bytes)
    ensures var p := a + b + c + d + e + f + g;
            var i, j := |a| + |b|, |a| + |b| + |c|;
            var k, l := j + |d|, j + |d| + |e|;
            && p[..|a|] == a && p[|a|..i] == b && p[i..j] == c && p[j..k] == d && p[k..l] == e && p[l..l + |f|] == f
            && p[l + |f|..] == g
  {
  }

  lemma {:induction false} NumberBack(n: nat, width: nat)
    requires n < Pow256(width)
    ensures ValueBE(EncodeBE(n, width)) == n
  {
    ValueOfEncode(n, width);
    ModUnique(n, Pow256(width), 0, n);
  }

  /** The bytes hashed for an exit, offset by offset. */
  lemma ExitBytes(e: BridgeExit)
    requires ExitHashable(e)
    requires |e.tokenInfo.value.originTokenAddress.value| == 20 && |e.destAddress.value| == 20
    ensures var p := ExitPreimage(ViewExit(e));
            && |p| >= 81
            && p[0] == (if e.leafType == 1 then 0 else 1)
            && ValueBE(p[1..5]) == e.tokenInfo.value.originNetwork
            && p[5..25] == e.tokenInfo.value.originTokenAddress.value
            && ValueBE(p[25..29]) == e.destNetwork
            && p[29..49] == e.destAddress.value
            && ValueBE(p[49..81]) == ValueBE(e.amount.value) % Pow256(32)
            && p[81..] == if e.metadata.Some? then e.metadata.value else EMPTY_METADATA_HASH
  {
    var v := ViewExit(e);
    PowerValues();
    NumberBack(v.originNetwork, 4);
    NumberBack(v.destNetwork, 4);
    NumberBack(v.amount, 32);
    Seven([if v.transfer then 0 else 1], EncodeBE(v.originNetwork, 4), v.tokenAddress, EncodeBE(v.destNetwork, 4),
          v.destAddress, EncodeBE(v.amount, 32), v.metadataHash);
  }

  lemma {:induction false} ConcatAt(parts: seq<bytes>, k: nat)
    requires k < |parts| && forall j :: 0 <= j < |parts| ==> |parts[j]| == 32
    ensures |Concat(parts)| == 32 * |parts| && Concat(parts)[32 * k..32 * k + 32] == parts[k]
  {
    var n := |parts| - 1;
    ConcatLength(parts, 32);
    ConcatLength(parts[..n], 32);
    if k < n {
      ConcatAt(parts[..n], k);
      assert Concat(parts)[32 * k..32 * k + 32] == Concat(parts[..n])[32 * k..32 * k + 32];
    }
  }

  /** A proof is hashed as its root and then its siblings, in order. */
  lemma ProofBytes(p: MerkleProof, k: nat)
    requires |p.root| == 32 && k < |p.siblings| && forall j :: 0 <= j < |p.siblings| ==> |p.siblings[j]| == 32
    ensures var b := ProofPreimage(p);
            && |b| == 32 + 32 * |p.siblings|
            && b[..32] == p.root && b[32 + 32 * k..64 + 32 * k] == p.siblings[k]
  {
    ConcatAt(p.siblings, k);
  }

  /** The bytes hashed for a claim: the hashes of its proofs in order, and its leaf. */
  lemma ClaimBytes(h: Hash, claim: Claim)
    requires Digest32(h)
    ensures var p := ClaimPreimage(h, ViewClaim(Some(claim)));
            var leaf := h(claim.l1Leaf.mer + claim.l1Leaf.rer) + claim.l1Leaf.blockHash + EncodeBE(claim.l1Leaf.timestamp, 8);
            match claim
            case Mainnet(leafMer, gerL1Root, _) =>
              |p| == 96 && p[..32] == h(ProofPreimage(leafMer)) && p[32..64] == h(ProofPreimage(gerL1Root)) && p[64..] == h(leaf)
            case Rollup(leafLer, lerRer, ger, _) =>
              && |p| >= 96 && p[..32] == h(ProofPreimage(leafLer)) && p[32..64] == h(ProofPreimage(lerRer))
              && p[64..96] == h(ProofPreimage(ger)) && p[96..] == leaf
  {
  }

  /** The bytes hashed for an imported exit: the exit, the claim if there is one, the reversed global index. */
  lemma ImportedBytes(h: Hash, b: ImportedBridgeExit)
    requires Digest32(h) && ImportedHashable(b)
    ensures var p := ImportedPreimage(h, ViewImported(b));
            var index := Reverse(b.globalIndex.value[..32]);
            && |p| == (if b.claim.Some? then 96 else 64)
            && p[..32] == h(ExitPreimage(ViewExit(b.bridgeExit.value)))
            && (b.claim.Some? ==> p[32..64] == h(ClaimPreimage(h, ViewClaim(b.claim))))
            && p[|p| - 32..] == h(index)
  {
  }

  /** The bytes of the final hash, offset by offset. */
  lemma FinalBytes(h: Hash, c: Certificate)
    requires Digest32(h) && Hashable(c) && |c.prevLocalExitRoot| == 32 && |c.newLocalExitRoot| == 32
    ensures var p := FinalPreimage(h, View(c));
            && |p| >= 140
            && ValueBE(p[..4]) == c.networkId && ValueBE(p[4..12]) == c.height
            && p[12..44] == c.prevLocalExitRoot && p[44..76] == c.newLocalExitRoot
            && p[76..108] == h(Concat(ExitHashes(h, ViewExits(c.bridgeExits))))
            && p[108..140] == h(Concat(ImportedHashes(h, ViewImportedExits(c.importedBridgeExits))))
            && p[140..] == c.metadata
  {
    FinalFields(h, View(c));
  }

  lemma FinalFields(h: Hash, v: CertificateView)
    requires Digest32(h) && |v.prevLocalExitRoot| == 32 && |v.newLocalExitRoot| == 32
    ensures var p := FinalPreimage(h, v);
            && |p| >= 140
            && ValueBE(p[..4]) == v.networkId && ValueBE(p[4..12]) == v.height
            && p[12..44] == v.prevLocalExitRoot && p[44..76] == v.newLocalExitRoot
            && p[76..108] == h(Concat(ExitHashes(h, v.exits))) && p[108..140] == h(Concat(ImportedHashes(h, v.imported)))
            && p[140..] == v.metadata
  {
    var x, y := h(Concat(ExitHashes(h, v.exits))), h(Concat(ImportedHashes(h, v.imported)));
    PowerValues();
    NumberBack(v.networkId, 4);
    NumberBack(v.height, 8);
    Seven(EncodeBE(v.networkId, 4), EncodeBE(v.height, 8), v.prevLocalExitRoot, v.newLocalExitRoot, x, y, v.metadata);
  }

  /** The hashes of the exits stand one after the other, 32 bytes each. */
  lemma ExitsBytes(h: Hash, exits: seq<BridgeExit>, k: nat)
    requires Digest32(h) && k < |exits| && forall j :: 0 <= j < |exits| ==> ExitHashable(exits[j])
    ensures var b := Concat(ExitHashes(h, ViewExits(exits)));
            |b| == 32 * |exits| && b[32 * k..32 * k + 32] == h(ExitPreimage(ViewExit(exits[k])))
  {
    ConcatAt(ExitHashes(h, ViewExits(exits)), k);
  }

  lemma ImportedExitsBytes(h: Hash, exits: seq<ImportedBridgeExit>, k: nat)
    requires Digest32(h) && k < |exits| && forall j :: 0 <= j < |exits| ==> ImportedHashable(exits[j])
    ensures var b := Concat(ImportedHashes(h, ViewImportedExits(exits)));
            |b| == 32 * |exits| && b[32 * k..32 * k + 32] == h(ImportedPreimage(h, ViewImported(exits[k])))
  {
    ConcatAt(ImportedHashes(h, ViewImportedExits(exits)), k);
  }
}
