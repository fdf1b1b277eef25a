/** The protobuf messages a certificate submission carries, as far as the proxy looks at them. */
module Certificates {
  import opened Wrappers
  import opened Bytes

  // Protobuf enums are open: any other number may arrive.
  const LEAF_TYPE_UNSPECIFIED: int := 0
  const LEAF_TYPE_TRANSFER: int := 1
  const LEAF_TYPE_MESSAGE: int := 2

  datatype TokenInfo = TokenInfo(originNetwork: uint32, originTokenAddress: Option<bytes>)

  datatype BridgeExit = BridgeExit(
    leafType: int,
    tokenInfo: Option<TokenInfo>,
    destNetwork: uint32,
    destAddress: Option<bytes>,
    amount: Option<bytes>,
    metadata: Option<bytes>)

  datatype MerkleProof = MerkleProof(root: bytes, siblings: seq<bytes>)

  datatype L1Leaf = L1Leaf(
    l1InfoTreeIndex: uint32,
    mer: bytes,
    rer: bytes,
    globalExitRoot: bytes,
    blockHash: bytes,
    timestamp: uint64)

  datatype Claim =
    | Mainnet(proofLeafMer: MerkleProof, proofGerL1Root: MerkleProof, l1Leaf: L1Leaf)
    | Rollup(proofLeafLer: MerkleProof, proofLerRer: MerkleProof, proofGer: MerkleProof, l1Leaf: L1Leaf)

  datatype ImportedBridgeExit = ImportedBridgeExit(
    bridgeExit: Option<BridgeExit>,
    globalIndex: Option<bytes>,
    claim: Option<Claim>)

  datatype Certificate = Certificate(
    networkId: uint32,
    height: uint64,
    prevLocalExitRoot: bytes,
    newLocalExitRoot: bytes,
    bridgeExits: seq<BridgeExit>,
    importedBridgeExits: seq<ImportedBridgeExit>,
    metadata: bytes,
    customChainData: bytes,
    l1InfoTreeLeafCount: Option<uint32>)

  /** `GetAmount().GetValue()`: an absent amount reads as no bytes. */
  function AmountBytes(e: BridgeExit): bytes {
    if e.amount.Some? then e.amount.value else []
  }

  /** The parts `hashBridgeExit` dereferences; it panics when one is missing. */
  predicate ExitHashable(e: BridgeExit) {
    && e.tokenInfo.Some?
    && e.tokenInfo.value.originTokenAddress.Some?
    && e.destAddress.Some?
    && e.amount.Some?
  }

  predicate ImportedHashable(e: ImportedBridgeExit) {
    && e.bridgeExit.Some? && ExitHashable(e.bridgeExit.value)
    && e.globalIndex.Some? && |e.globalIndex.value| >= 32
  }

  /** Certificates on which id generation does not panic. */
  predicate Hashable(c: Certificate) {
    && (forall k :: 0 <= k < |c.bridgeExits| ==> ExitHashable(c.bridgeExits[k]))
    && (forall k :: 0 <= k < |c.importedBridgeExits| ==> ImportedHashable(c.importedBridgeExits[k]))
  }
}
