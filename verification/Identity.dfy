/**
 The certificate id: a nested hash over concatenated fields.

 `View` is the part of a certificate the id is meant to commit to. The specification hashes the view;
 the methods hash the message with byte buffers, the way the program does, and are proved equal to it.
 The hash function is a parameter `h`; nothing is assumed of it but a 32-byte result.
 */
module Identity {
  import opened Wrappers
  import opened Bytes
  import opened Certificates

  type Hash = bytes -> bytes

  ghost predicate Digest32(h: Hash) {
    forall x :: |h(x)| == 32
  }

  const EMPTY_METADATA_HASH: bytes := [
    0xc5, 0xd2, 0x46, 0x01, 0x86, 0xf7, 0x23, 0x3c, 0x92, 0x7e, 0x7d, 0xb2, 0xdc, 0xc7, 0x03, 0xc0,
    0xe5, 0x00, 0xb6, 0x53, 0xca, 0x82, 0x27, 0x3b, 0x7b, 0xfa, 0xd8, 0x04, 0x5d, 0x85, 0xa4, 0x70]

  // ----- The canonical view ---------------------------------------------------------------------

  datatype ExitView = ExitView(
    transfer: bool,
    originNetwork: uint32,
    tokenAddress: bytes,
    destNetwork: uint32,
    destAddress: bytes,
    amount: nat,
    metadataHash: bytes)

  datatype LeafView = LeafView(mer: bytes, rer: bytes, blockHash: bytes, timestamp: uint64)

  datatype ClaimView =
    | Unclaimed
    | FromMainnet(leafMer: MerkleProof, gerL1Root: MerkleProof, leaf: LeafView)
    | FromRollup(leafLer: MerkleProof, lerRer: MerkleProof, gerL1Root: MerkleProof, leaf: LeafView)

  datatype ImportedView = ImportedView(exit: ExitView, claim: ClaimView, globalIndex: bytes)

  datatype CertificateView = CertificateView(
    networkId: uint32,
    height: uint64,
    prevLocalExitRoot: bytes,
    newLocalExitRoot: bytes,
    exits: seq<ExitView>,
    imported: seq<ImportedView>,
    metadata: bytes)

  function ViewExit(e: BridgeExit): ExitView
    requires ExitHashable(e)
  {
    ExitView(
      e.leafType == LEAF_TYPE_TRANSFER,
      e.tokenInfo.value.originNetwork,
      e.tokenInfo.value.originTokenAddress.value,
      e.destNetwork,
      e.destAddress.value,
      ValueBE(e.amount.value) % Pow256(32),
      if e.metadata.Some? then e.metadata.value else EMPTY_METADATA_HASH)
  }

  function ViewLeaf(l: L1Leaf): LeafView {
    LeafView(l.mer, l.rer, l.blockHash, l.timestamp)
  }

  function ViewClaim(c: Option<Claim>): ClaimView {
    match c
    case None => Unclaimed
    case Some(Mainnet(p, q, l)) => FromMainnet(p, q, ViewLeaf(l))
    case Some(Rollup(p, q, r, l)) => FromRollup(p, q, r, ViewLeaf(l))
  }

  function ViewImported(e: ImportedBridgeExit): ImportedView
    requires ImportedHashable(e)
  {
    ImportedView(ViewExit(e.bridgeExit.value), ViewClaim(e.claim), e.globalIndex.value[..32])
  }

  function ViewExits(es: seq<BridgeExit>): (vs: seq<ExitView>)
    requires forall k :: 0 <= k < |es| ==> ExitHashable(es[k])
  {
    seq(|es|, k requires 0 <= k < |es| => ViewExit(es[k]))
  }

  function ViewImportedExits(es: seq<ImportedBridgeExit>): (vs: seq<ImportedView>)
    requires forall k :: 0 <= k < |es| ==> ImportedHashable(es[k])
  {
    seq(|es|, k requires 0 <= k < |es| => ViewImported(es[k]))
  }

  function View(c: Certificate): CertificateView
    requires Hashable(c)
  {
    CertificateView(
      c.networkId, c.height, c.prevLocalExitRoot, c.newLocalExitRoot,
      ViewExits(c.bridgeExits), ViewImportedExits(c.importedBridgeExits), c.metadata)
  }

  // ----- The id of a view -----------------------------------------------------------------------

  function ExitPreimage(v: ExitView): bytes {
    [if v.transfer then 0 else 1]
    + EncodeBE(v.originNetwork, 4) + v.tokenAddress
    + EncodeBE(v.destNetwork, 4) + v.destAddress
    + EncodeBE(v.amount, 32) + v.metadataHash
  }

  function ProofPreimage(p: MerkleProof): bytes {
    p.root + Concat(p.siblings)
  }

  function LeafPreimage(h: Hash, l: LeafView): bytes {
    h(l.mer + l.rer) + l.blockHash + EncodeBE(l.timestamp, 8)
  }

  function ClaimPreimage(h: Hash, c: ClaimView): bytes
    requires !c.Unclaimed?
  {
    match c
    case FromMainnet(p, q, l) => h(ProofPreimage(p)) + h(ProofPreimage(q)) + h(LeafPreimage(h, l))
    case FromRollup(p, q, r, l) => h(ProofPreimage(p)) + h(ProofPreimage(q)) + h(ProofPreimage(r)) + LeafPreimage(h, l)
  }

  function ClaimPart(h: Hash, c: ClaimView): bytes {
    if c.Unclaimed? then [] else h(ClaimPreimage(h, c))
  }

  function ImportedPreimage(h: Hash, v: ImportedView): bytes {
    h(ExitPreimage(v.exit)) + ClaimPart(h, v.claim) + h(Reverse(v.globalIndex))
  }

  function ExitHashes(h: Hash, vs: seq<ExitView>): (hashes: seq<bytes>)
    ensures |hashes| == |vs|
    ensures forall k :: 0 <= k < |vs| ==> hashes[k] == h(ExitPreimage(vs[k]))
  {
    seq(|vs|, k requires 0 <= k < |vs| => h(ExitPreimage(vs[k])))
  }

  function ImportedHashes(h: Hash, vs: seq<ImportedView>): (hashes: seq<bytes>)
    ensures |hashes| == |vs|
    ensures forall k :: 0 <= k < |vs| ==> hashes[k] == h(ImportedPreimage(h, vs[k]))
  {
    seq(|vs|, k requires 0 <= k < |vs| => h(ImportedPreimage(h, vs[k])))
  }

  function FinalPreimage(h: Hash, v: CertificateView): bytes {
    EncodeBE(v.networkId, 4) + EncodeBE(v.height, 8) + v.prevLocalExitRoot + v.newLocalExitRoot
    + h(Concat(ExitHashes(h, v.exits))) + h(Concat(ImportedHashes(h, v.imported))) + v.metadata
  }

  function CertificateId(h: Hash, v: CertificateView): bytes {
    h(FinalPreimage(h, v))
  }

  // ----- The program's own computation ----------------------------------------------------------

  /** `None` stands for a panic: a missing part is dereferenced. */
  method HashBridgeExit(h: Hash, b: BridgeExit) returns (hash: Option<bytes>)
    ensures hash == if ExitHashable(b) then Some(h(ExitPreimage(ViewExit(b)))) else None
  {
    if b.tokenInfo.None? || b.tokenInfo.value.originTokenAddress.None? {
      return None;
    }
    if b.destAddress.None? || b.amount.None? {
      return None;
    }
    var data := ExitData(b);
    hash := Some(h(data));
  }

  method ExitData(b: BridgeExit) returns (data: bytes)
    requires ExitHashable(b)
    ensures data == ExitPreimage(ViewExit(b))
  {
    if b.leafType == LEAF_TYPE_TRANSFER {
      data := [0];
    } else {
      data := [1];
    }
    data := data + EncodeBE(b.tokenInfo.value.originNetwork, 4);
    data := data + b.tokenInfo.value.originTokenAddress.value;
    data := data + EncodeBE(b.destNetwork, 4);
    data := data + b.destAddress.value;
    var amountBytes := AmountField(b.amount.value);
    data := data + amountBytes;
    data := data + if b.metadata.Some? then b.metadata.value else EMPTY_METADATA_HASH;
  }

  method CopyInto(buffer: array<byte>, start: nat, source: bytes)
    requires start + |source| <= buffer.Length
    modifies buffer
    ensures buffer[..] == old(buffer[..start]) + source + old(buffer[start + |source|..])
  {
    for k := 0 to |source|
      invariant forall j :: 0 <= j < k ==> buffer[start + j] == source[j]
      invariant forall j :: 0 <= j < start || start + k <= j < buffer.Length ==> buffer[j] == old(buffer[j])
    {
      buffer[start + k] := source[k];
    }
  }

  /** The amount right-aligned in 32 bytes: short values are padded, long ones lose their high bytes. */
  method AmountField(amount: bytes) returns (field: bytes)
    ensures field == EncodeBE(ValueBE(amount) % Pow256(32), 32)
  {
    var buffer := new byte[32](_ => 0);
    assert buffer[..] == Zeros(32);
    if |amount| <= 32 {
      CopyInto(buffer, 32 - |amount|, amount);
      assert buffer[..] == Zeros(32 - |amount|) + amount;
    } else {
      CopyInto(buffer, 0, amount[|amount| - 32..]);
      assert buffer[..] == amount[|amount| - 32..];
    }
    field := buffer[..];
    AmountFieldOf(amount, field);
  }

  lemma {:induction false} AmountFieldOf(amount: bytes, field: bytes)
    requires field == if |amount| >= 32 then amount[|amount| - 32..] else Zeros(32 - |amount|) + amount
    ensures field == EncodeBE(ValueBE(amount) % Pow256(32), 32)
  {
    EncodeOfValue(amount, 32);
    EncodeModulo(ValueBE(amount), 32);
  }

  lemma {:induction false} EncodeModulo(n: nat, width: nat)
    ensures EncodeBE(n % Pow256(width), width) == EncodeBE(n, width)
  {
    var b := EncodeBE(n, width);
    ValueOfEncode(n, width);
    EncodeOfValue(b, width);
  }

  method HashProof(h: Hash, p: MerkleProof) returns (hash: bytes)
    ensures hash == h(ProofPreimage(p))
  {
    var combined: bytes := [];
    for k := 0 to |p.siblings|
      invariant combined == Concat(p.siblings[..k])
    {
      combined := combined + p.siblings[k];
      assert p.siblings[..k + 1][..k] == p.siblings[..k];
    }
    assert p.siblings[..|p.siblings|] == p.siblings;
    hash := h(p.root + combined);
  }

  method HashClaim(h: Hash, claim: Claim) returns (hash: bytes)
    ensures hash == h(ClaimPreimage(h, ViewClaim(Some(claim))))
  {
    match claim
    case Mainnet(proofLeafMer, proofGerL1Root, leaf) =>
      var leafMerHash := HashProof(h, proofLeafMer);
      var proofGerL1RootHash := HashProof(h, proofGerL1Root);
      var gerHash := h(leaf.mer + leaf.rer);
      var l1LeafHash := h(gerHash + leaf.blockHash + EncodeBE(leaf.timestamp, 8));
      hash := h(leafMerHash + proofGerL1RootHash + l1LeafHash);
    case Rollup(proofLeafLer, proofLerRer, proofGer, leaf) =>
      var leafLerHash := HashProof(h, proofLeafLer);
      var proofLerRerHash := HashProof(h, proofLerRer);
      var proofGerHash := HashProof(h, proofGer);
      var l1Leaf := h(leaf.mer + leaf.rer);
      l1Leaf := l1Leaf + leaf.blockHash;
      l1Leaf := l1Leaf + EncodeBE(leaf.timestamp, 8);
      hash := h(leafLerHash + proofLerRerHash + proofGerHash + l1Leaf);
  }

  method ReverseIndex(globalIndex: bytes) returns (r: bytes)
    requires |globalIndex| >= 32
    ensures r == Reverse(globalIndex[..32])
  {
    var reversed := new byte[32](_ => 0);
    for i := 0 to 32
      invariant forall j :: 0 <= j < i ==> reversed[j] == globalIndex[31 - j]
    {
      reversed[i] := globalIndex[31 - i];
    }
    r := reversed[..];
  }

  method HashImportedBridgeExit(h: Hash, b: ImportedBridgeExit) returns (hash: Option<bytes>)
    ensures hash == if ImportedHashable(b) then Some(h(ImportedPreimage(h, ViewImported(b)))) else None
  {
    if b.bridgeExit.None? {
      return None;
    }
    var exitHash := HashBridgeExit(h, b.bridgeExit.value);
    if exitHash.None? {
      return None;
    }
    var data := exitHash.value;
    var claimToHash: bytes := [];
    if b.claim.Some? {
      claimToHash := HashClaim(h, b.claim.value);
    }
    data := data + claimToHash;
    if b.globalIndex.None? || |b.globalIndex.value| < 32 {
      return None;
    }
    var reversed := ReverseIndex(b.globalIndex.value);
    data := data + h(reversed);
    hash := Some(h(data));
  }

  method HashExits(h: Hash, exits: seq<BridgeExit>) returns (hashes: Option<seq<bytes>>)
    ensures hashes.Some? <==> forall k :: 0 <= k < |exits| ==> ExitHashable(exits[k])
    ensures hashes.Some? ==> hashes.value == ExitHashes(h, ViewExits(exits))
  {
    var combined: seq<bytes> := [];
    for k := 0 to |exits|
      invariant |combined| == k
      invariant forall j :: 0 <= j < k ==> ExitHashable(exits[j]) && combined[j] == h(ExitPreimage(ViewExit(exits[j])))
    {
      var hash := HashBridgeExit(h, exits[k]);
      if hash.None? {
        return None;
      }
      combined := combined + [hash.value];
    }
    hashes := Some(combined);
  }

  method HashImportedExits(h: Hash, exits: seq<ImportedBridgeExit>) returns (hashes: Option<seq<bytes>>)
    ensures hashes.Some? <==> forall k :: 0 <= k < |exits| ==> ImportedHashable(exits[k])
    ensures hashes.Some? ==> hashes.value == ImportedHashes(h, ViewImportedExits(exits))
  {
    var combined: seq<bytes> := [];
    for k := 0 to |exits|
      invariant |combined| == k
      invariant forall j :: 0 <= j < k ==>
                  ImportedHashable(exits[j]) && combined[j] == h(ImportedPreimage(h, ViewImported(exits[j])))
    {
      var hash := HashImportedBridgeExit(h, exits[k]);
      if hash.None? {
        return None;
      }
      combined := combined + [hash.value];
    }
    hashes := Some(combined);
  }

  /** The id exists exactly if nothing that is dereferenced is missing, and is then that of the view. */
  method GenerateCertificateId(h: Hash, cert: Certificate) returns (id: Option<bytes>)
    ensures id == if Hashable(cert) then Some(CertificateId(h, View(cert))) else None
    ensures id.Some? ==> forall e :: e in cert.bridgeExits ==> e.tokenInfo.Some? && e.tokenInfo.value.originTokenAddress.Some?
  {
    var combinedExits := HashExits(h, cert.bridgeExits);
    if combinedExits.None? {
      return None;
    }
    var hashedCombinedExits := h(Concat(combinedExits.value));
    var importedBridgeExits := HashImportedExits(h, cert.importedBridgeExits);
    if importedBridgeExits.None? {
      return None;
    }
    var hashedImportedBridgeExits := h(Concat(importedBridgeExits.value));
    var finalHash := EncodeBE(cert.networkId, 4);
    finalHash := finalHash + EncodeBE(cert.height, 8);
    finalHash := finalHash + cert.prevLocalExitRoot;
    finalHash := finalHash + cert.newLocalExitRoot;
    finalHash := finalHash + hashedCombinedExits;
    finalHash := finalHash + hashedImportedBridgeExits;
    finalHash := finalHash + cert.metadata;
    id := Some(h(finalHash));
  }
}
