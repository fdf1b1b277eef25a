/**
 What the certificate id commits to.

 A bare "or there is a collision" would say nothing, since every 32-byte hash has collisions. The
 theorem below finds the collision among the inputs the two id computations actually hash.
 */
module Commitment {
  import opened Wrappers
  import opened Bytes
  import opened Certificates
  import opened Identity

  // ----- The inputs hashed while computing an id ------------------------------------------------

  ghost function ClaimQueries(h: Hash, c: ClaimView): set<bytes> {
    match c
    case Unclaimed => {}
    case FromMainnet(p, q, l) =>
      {ProofPreimage(p), ProofPreimage(q), l.mer + l.rer, LeafPreimage(h, l), ClaimPreimage(h, c)}
    case FromRollup(p, q, r, l) =>
      {ProofPreimage(p), ProofPreimage(q), ProofPreimage(r), l.mer + l.rer, ClaimPreimage(h, c)}
  }

  ghost function ImportedQueries(h: Hash, v: ImportedView): set<bytes> {
    {ExitPreimage(v.exit), Reverse(v.globalIndex), ImportedPreimage(h, v)} + ClaimQueries(h, v.claim)
  }

  ghost function Queries(h: Hash, v: CertificateView): set<bytes> {
    {FinalPreimage(h, v), Concat(ExitHashes(h, v.exits)), Concat(ImportedHashes(h, v.imported))}
    + (set k | 0 <= k < |v.exits| :: ExitPreimage(v.exits[k]))
    + (set k, x | 0 <= k < |v.imported| && x in ImportedQueries(h, v.imported[k]) :: x)
  }

  /** No input of one side collides with a different input of the other. */
  ghost predicate Separates(h: Hash, xs: set<bytes>, ys: set<bytes>) {
    forall x, y :: x in xs && y in ys && h(x) == h(y) ==> x == y
  }

  // ----- Field widths ---------------------------------------------------------------------------

  predicate ExitWidths(v: ExitView) {
    |v.tokenAddress| == 20 && |v.destAddress| == 20 && v.amount < Pow256(32)
  }

  predicate ProofWidths(p: MerkleProof) {
    |p.root| == 32 && forall k :: 0 <= k < |p.siblings| ==> |p.siblings[k]| == 32
  }

  predicate LeafWidths(l: LeafView) {
    |l.mer| == 32 && |l.rer| == 32 && |l.blockHash| == 32
  }

  predicate ClaimWidths(c: ClaimView) {
    match c
    case Unclaimed => true
    case FromMainnet(p, q, l) => ProofWidths(p) && ProofWidths(q) && LeafWidths(l)
    case FromRollup(p, q, r, l) => ProofWidths(p) && ProofWidths(q) && ProofWidths(r) && LeafWidths(l)
  }

  predicate ImportedWidths(v: ImportedView) {
    ExitWidths(v.exit) && ClaimWidths(v.claim) && |v.globalIndex| == 32
  }

  predicate Widths(v: CertificateView) {
    && |v.prevLocalExitRoot| == 32 && |v.newLocalExitRoot| == 32
    && (forall k :: 0 <= k < |v.exits| ==> ExitWidths(v.exits[k]))
    && (forall k :: 0 <= k < |v.imported| ==> ImportedWidths(v.imported[k]))
  }

  // ----- Each preimage determines its fields ----------------------------------------------------

  lemma ExitPreimageInjective(u: ExitView, v: ExitView)
    requires ExitWidths(u) && ExitWidths(v)
    requires ExitPreimage(u) == ExitPreimage(v)
    ensures u == v
  {
    var a0, b0 := [if u.transfer then 0 else 1], [if v.transfer then 0 else 1];
    var a1, b1 := a0 + EncodeBE(u.originNetwork, 4), b0 + EncodeBE(v.originNetwork, 4);
    var a2, b2 := a1 + u.tokenAddress, b1 + v.tokenAddress;
    var a3, b3 := a2 + EncodeBE(u.destNetwork, 4), b2 + EncodeBE(v.destNetwork, 4);
    var a4, b4 := a3 + u.destAddress, b3 + v.destAddress;
    var a5, b5 := a4 + EncodeBE(u.amount, 32), b4 + EncodeBE(v.amount, 32);
    SplitAt(a5, u.metadataHash, b5, v.metadataHash);
    SplitAt(a4, EncodeBE(u.amount, 32), b4, EncodeBE(v.amount, 32));
    SplitAt(a3, u.destAddress, b3, v.destAddress);
    SplitAt(a2, EncodeBE(u.destNetwork, 4), b2, EncodeBE(v.destNetwork, 4));
    SplitAt(a1, u.tokenAddress, b1, v.tokenAddress);
    SplitAt(a0, EncodeBE(u.originNetwork, 4), b0, EncodeBE(v.originNetwork, 4));
    PowerValues();
    EncodeInjective(u.amount, v.amount, 32);
    EncodeInjective(u.originNetwork, v.originNetwork, 4);
    EncodeInjective(u.destNetwork, v.destNetwork, 4);
    assert a0[0] == b0[0];
  }

  lemma ProofPreimageInjective(p: MerkleProof, q: MerkleProof)
    requires ProofWidths(p) && ProofWidths(q)
    requires ProofPreimage(p) == ProofPreimage(q)
    ensures p == q
  {
    SplitAt(p.root, Concat(p.siblings), q.root, Concat(q.siblings));
    ConcatInjective(p.siblings, q.siblings, 32);
  }

  lemma LeafCommits(h: Hash, l: LeafView, m: LeafView)
    requires Digest32(h)
    requires LeafWidths(l) && LeafWidths(m)
    requires LeafPreimage(h, l) == LeafPreimage(h, m)
    requires Separates(h, {l.mer + l.rer}, {m.mer + m.rer})
    ensures l == m
  {
    var a, b := h(l.mer + l.rer), h(m.mer + m.rer);
    SplitAt(a + l.blockHash, EncodeBE(l.timestamp, 8), b + m.blockHash, EncodeBE(m.timestamp, 8));
    SplitAt(a, l.blockHash, b, m.blockHash);
    SplitAt(l.mer, l.rer, m.mer, m.rer);
    PowerValues();
    EncodeInjective(l.timestamp, m.timestamp, 8);
  }

  /** 96 bytes for a mainnet claim, 168 for a rollup claim, so the two kinds are told apart. */
  lemma ClaimPreimageLength(h: Hash, c: ClaimView)
    requires Digest32(h) && ClaimWidths(c) && !c.Unclaimed?
    ensures |ClaimPreimage(h, c)| == if c.FromMainnet? then 96 else 168
  {
  }

  lemma ClaimCommits(h: Hash, c: ClaimView, d: ClaimView)
    requires Digest32(h)
    requires ClaimWidths(c) && ClaimWidths(d)
    requires !c.Unclaimed? && !d.Unclaimed?
    requires h(ClaimPreimage(h, c)) == h(ClaimPreimage(h, d))
    requires Separates(h, ClaimQueries(h, c), ClaimQueries(h, d))
    ensures c == d
  {
    assert ClaimPreimage(h, c) == ClaimPreimage(h, d);
    ClaimPreimageLength(h, c);
    ClaimPreimageLength(h, d);
    match (c, d)
    case (FromMainnet(p, q, l), FromMainnet(p', q', l')) =>
      var a, b := h(ProofPreimage(p)), h(ProofPreimage(p'));
      SplitAt(a + h(ProofPreimage(q)), h(LeafPreimage(h, l)), b + h(ProofPreimage(q')), h(LeafPreimage(h, l')));
      SplitAt(a, h(ProofPreimage(q)), b, h(ProofPreimage(q')));
      ProofPreimageInjective(p, p');
      ProofPreimageInjective(q, q');
      LeafCommits(h, l, l');
    case (FromRollup(p, q, r, l), FromRollup(p', q', r', l')) =>
      var a, b := h(ProofPreimage(p)), h(ProofPreimage(p'));
      var a', b' := a + h(ProofPreimage(q)), b + h(ProofPreimage(q'));
      SplitAt(a' + h(ProofPreimage(r)), LeafPreimage(h, l), b' + h(ProofPreimage(r')), LeafPreimage(h, l'));
      SplitAt(a', h(ProofPreimage(r)), b', h(ProofPreimage(r')));
      SplitAt(a, h(ProofPreimage(q)), b, h(ProofPreimage(q')));
      ProofPreimageInjective(p, p');
      ProofPreimageInjective(q, q');
      ProofPreimageInjective(r, r');
      LeafCommits(h, l, l');
    case _ =>
  }

  lemma ImportedCommits(h: Hash, u: ImportedView, v: ImportedView)
    requires Digest32(h)
    requires ImportedWidths(u) && ImportedWidths(v)
    requires h(ImportedPreimage(h, u)) == h(ImportedPreimage(h, v))
    requires Separates(h, ImportedQueries(h, u), ImportedQueries(h, v))
    ensures u == v
  {
    var x, y := ExitPreimage(u.exit), ExitPreimage(v.exit);
    var a, b := ClaimPart(h, u.claim), ClaimPart(h, v.claim);
    var i, j := Reverse(u.globalIndex), Reverse(v.globalIndex);
    assert ImportedPreimage(h, u) == ImportedPreimage(h, v);
    assert |h(x) + a + h(i)| == |h(y) + b + h(j)|;
    SplitAt(h(x) + a, h(i), h(y) + b, h(j));
    SplitAt(h(x), a, h(y), b);
    ExitPreimageInjective(u.exit, v.exit);
    ReverseInjective(u.globalIndex, v.globalIndex);
    if !u.claim.Unclaimed? {
      ClaimCommits(h, u.claim, v.claim);
    }
  }

  lemma ExitsCommit(h: Hash, us: seq<ExitView>, vs: seq<ExitView>, xs: set<bytes>, ys: set<bytes>)
    requires Digest32(h)
    requires forall k :: 0 <= k < |us| ==> ExitWidths(us[k])
    requires forall k :: 0 <= k < |vs| ==> ExitWidths(vs[k])
    requires h(Concat(ExitHashes(h, us))) == h(Concat(ExitHashes(h, vs)))
    requires Separates(h, xs, ys)
    requires Concat(ExitHashes(h, us)) in xs && forall k :: 0 <= k < |us| ==> ExitPreimage(us[k]) in xs
    requires Concat(ExitHashes(h, vs)) in ys && forall k :: 0 <= k < |vs| ==> ExitPreimage(vs[k]) in ys
    ensures us == vs
  {
    var hus, hvs := ExitHashes(h, us), ExitHashes(h, vs);
    ConcatInjective(hus, hvs, 32);
    forall k | 0 <= k < |us|
      ensures us[k] == vs[k]
    {
      assert hus[k] == hvs[k];
      ExitPreimageInjective(us[k], vs[k]);
    }
  }

  lemma ImportedCommitsWithin(h: Hash, u: ImportedView, v: ImportedView, xs: set<bytes>, ys: set<bytes>)
    requires Digest32(h)
    requires ImportedWidths(u) && ImportedWidths(v)
    requires h(ImportedPreimage(h, u)) == h(ImportedPreimage(h, v))
    requires Separates(h, xs, ys) && ImportedQueries(h, u) <= xs && ImportedQueries(h, v) <= ys
    ensures u == v
  {
    ImportedCommits(h, u, v);
  }

  lemma ImportedExitsCommit(h: Hash, us: seq<ImportedView>, vs: seq<ImportedView>, xs: set<bytes>, ys: set<bytes>)
    requires Digest32(h)
    requires forall k :: 0 <= k < |us| ==> ImportedWidths(us[k])
    requires forall k :: 0 <= k < |vs| ==> ImportedWidths(vs[k])
    requires h(Concat(ImportedHashes(h, us))) == h(Concat(ImportedHashes(h, vs)))
    requires Separates(h, xs, ys)
    requires Concat(ImportedHashes(h, us)) in xs && forall k :: 0 <= k < |us| ==> ImportedQueries(h, us[k]) <= xs
    requires Concat(ImportedHashes(h, vs)) in ys && forall k :: 0 <= k < |vs| ==> ImportedQueries(h, vs[k]) <= ys
    ensures us == vs
  {
    var hus, hvs := ImportedHashes(h, us), ImportedHashes(h, vs);
    ConcatInjective(hus, hvs, 32);
    forall k | 0 <= k < |us|
      ensures us[k] == vs[k]
    {
      assert hus[k] == hvs[k];
      ImportedCommitsWithin(h, us[k], vs[k], xs, ys);
    }
  }

  // ----- The id commits to the view -------------------------------------------------------------

  lemma FinalPreimageFields(h: Hash, u: CertificateView, v: CertificateView)
    requires Digest32(h)
    requires Widths(u) && Widths(v)
    requires FinalPreimage(h, u) == FinalPreimage(h, v)
    ensures u.networkId == v.networkId && u.height == v.height
    ensures u.prevLocalExitRoot == v.prevLocalExitRoot && u.newLocalExitRoot == v.newLocalExitRoot
    ensures u.metadata == v.metadata
    ensures h(Concat(ExitHashes(h, u.exits))) == h(Concat(ExitHashes(h, v.exits)))
    ensures h(Concat(ImportedHashes(h, u.imported))) == h(Concat(ImportedHashes(h, v.imported)))
  {
    var e, f := h(Concat(ExitHashes(h, u.exits))), h(Concat(ExitHashes(h, v.exits)));
    var i, j := h(Concat(ImportedHashes(h, u.imported))), h(Concat(ImportedHashes(h, v.imported)));
    var a0, b0 := EncodeBE(u.networkId, 4), EncodeBE(v.networkId, 4);
    var a1, b1 := a0 + EncodeBE(u.height, 8), b0 + EncodeBE(v.height, 8);
    var a2, b2 := a1 + u.prevLocalExitRoot, b1 + v.prevLocalExitRoot;
    var a3, b3 := a2 + u.newLocalExitRoot, b2 + v.newLocalExitRoot;
    SplitAt(a3 + e + i, u.metadata, b3 + f + j, v.metadata);
    SplitAt(a3 + e, i, b3 + f, j);
    SplitAt(a3, e, b3, f);
    SplitAt(a2, u.newLocalExitRoot, b2, v.newLocalExitRoot);
    SplitAt(a1, u.prevLocalExitRoot, b1, v.prevLocalExitRoot);
    SplitAt(a0, EncodeBE(u.height, 8), b0, EncodeBE(v.height, 8));
    PowerValues();
    EncodeInjective(u.networkId, v.networkId, 4);
    EncodeInjective(u.height, v.height, 8);
  }

  lemma QueriesContain(h: Hash, v: CertificateView)
    ensures FinalPreimage(h, v) in Queries(h, v)
    ensures Concat(ExitHashes(h, v.exits)) in Queries(h, v)
    ensures Concat(ImportedHashes(h, v.imported)) in Queries(h, v)
    ensures forall k :: 0 <= k < |v.exits| ==> ExitPreimage(v.exits[k]) in Queries(h, v)
    ensures forall k :: 0 <= k < |v.imported| ==> ImportedQueries(h, v.imported[k]) <= Queries(h, v)
  {
  }

  lemma ViewsCommit(h: Hash, u: CertificateView, v: CertificateView, xs: set<bytes>, ys: set<bytes>)
    requires Digest32(h)
    requires Widths(u) && Widths(v)
    requires CertificateId(h, u) == CertificateId(h, v)
    requires xs == Queries(h, u) && ys == Queries(h, v) && Separates(h, xs, ys)
    ensures u == v
  {
    QueriesContain(h, u);
    QueriesContain(h, v);
    FinalPreimageFields(h, u, v);
    ExitsCommit(h, u.exits, v.exits, xs, ys);
    ImportedExitsCommit(h, u.imported, v.imported, xs, ys);
  }

  /** Certificates whose fields have the widths the protocol fixes. */
  predicate WellFormed(c: Certificate) {
    && Hashable(c)
    && Widths(View(c))
    && (forall k :: 0 <= k < |c.importedBridgeExits| ==> |c.importedBridgeExits[k].globalIndex.value| == 32)
  }

  /**
   Two well-formed certificates have the same id exactly when their views agree, or else two
   different inputs hashed on the way have the same hash.
   */
  lemma IdCommitsToView(h: Hash, c: Certificate, d: Certificate)
    requires Digest32(h)
    requires WellFormed(c) && WellFormed(d)
    ensures View(c) == View(d) ==> CertificateId(h, View(c)) == CertificateId(h, View(d))
    ensures CertificateId(h, View(c)) == CertificateId(h, View(d))
            ==> View(c) == View(d)
                || exists x, y :: x in Queries(h, View(c)) && y in Queries(h, View(d)) && x != y && h(x) == h(y)
  {
    if CertificateId(h, View(c)) == CertificateId(h, View(d))
       && Separates(h, Queries(h, View(c)), Queries(h, View(d))) {
      ViewsCommit(h, View(c), View(d), Queries(h, View(c)), Queries(h, View(d)));
    }
  }

  /** Without the fixed widths the id does not separate views: bytes may move between the two roots. */
  lemma WidthsAreNeeded(h: Hash, c: Certificate)
    requires Hashable(c) && |c.prevLocalExitRoot| == 32
    ensures var d := c.(prevLocalExitRoot := [], newLocalExitRoot := c.prevLocalExitRoot + c.newLocalExitRoot);
            View(c) != View(d) && CertificateId(h, View(c)) == CertificateId(h, View(d))
  {
    var d := c.(prevLocalExitRoot := [], newLocalExitRoot := c.prevLocalExitRoot + c.newLocalExitRoot);
    var a := EncodeBE(c.networkId, 4) + EncodeBE(c.height, 8);
    assert a + c.prevLocalExitRoot + c.newLocalExitRoot == a + [] + d.newLocalExitRoot;
  }

  // ----- What the id ignores --------------------------------------------------------------------

  /** Spellings of one exit that hash alike. */
  predicate SameMeaning(e: BridgeExit, f: BridgeExit)
    requires ExitHashable(e) && ExitHashable(f)
  {
    && (e.leafType == LEAF_TYPE_TRANSFER <==> f.leafType == LEAF_TYPE_TRANSFER)
    && e.tokenInfo == f.tokenInfo && e.destNetwork == f.destNetwork && e.destAddress == f.destAddress
    && ValueBE(e.amount.value) % Pow256(32) == ValueBE(f.amount.value) % Pow256(32)
    && (e.metadata == f.metadata || {e.metadata, f.metadata} == {None, Some(EMPTY_METADATA_HASH)})
  }

  /** Respelling exits, or changing a field outside the view, leaves the id of any certificate alone. */
  lemma IdIgnoresSpelling(h: Hash, c: Certificate, d: Certificate)
    requires Hashable(c) && Hashable(d)
    requires d == c.(bridgeExits := d.bridgeExits, importedBridgeExits := d.importedBridgeExits,
                     customChainData := d.customChainData, l1InfoTreeLeafCount := d.l1InfoTreeLeafCount)
    requires |c.bridgeExits| == |d.bridgeExits| && |c.importedBridgeExits| == |d.importedBridgeExits|
    requires forall k :: 0 <= k < |c.bridgeExits| ==> SameMeaning(c.bridgeExits[k], d.bridgeExits[k])
    requires forall k :: 0 <= k < |c.importedBridgeExits| ==>
                           var e, f := c.importedBridgeExits[k], d.importedBridgeExits[k];
                           && SameMeaning(e.bridgeExit.value, f.bridgeExit.value)
                           && ViewClaim(e.claim) == ViewClaim(f.claim)
                           && e.globalIndex == f.globalIndex
    ensures CertificateId(h, View(c)) == CertificateId(h, View(d))
  {
    forall e: BridgeExit, f: BridgeExit | ExitHashable(e) && ExitHashable(f) && SameMeaning(e, f)
      ensures ViewExit(e) == ViewExit(f)
    {
      assert e.metadata == f.metadata || e.metadata in {e.metadata, f.metadata};
    }
    assert ViewExits(c.bridgeExits) == ViewExits(d.bridgeExits);
    assert ViewImportedExits(c.importedBridgeExits) == ViewImportedExits(d.importedBridgeExits);
  }

  /** Leading zeros, bytes above the 32nd, absent metadata and the two message leaf types do not matter. */
  lemma Respellings(e: BridgeExit, zeros: nat, high: bytes)
    requires ExitHashable(e)
    ensures SameMeaning(e, e.(amount := Some(Zeros(zeros) + e.amount.value)))
    ensures |e.amount.value| >= 32 ==> SameMeaning(e, e.(amount := Some(high + e.amount.value)))
    ensures SameMeaning(e.(metadata := None), e.(metadata := Some(EMPTY_METADATA_HASH)))
    ensures SameMeaning(e.(leafType := LEAF_TYPE_UNSPECIFIED), e.(leafType := LEAF_TYPE_MESSAGE))
  {
    AmountSpellings(e.amount.value, zeros, high);
    assert {None, Some(EMPTY_METADATA_HASH)} == {Some(EMPTY_METADATA_HASH), None};
  }

  lemma {:induction false} AmountSpellings(a: bytes, zeros: nat, high: bytes)
    ensures ValueBE(Zeros(zeros) + a) == ValueBE(a)
    ensures |a| >= 32 ==> ValueBE(high + a) % Pow256(32) == ValueBE(a) % Pow256(32)
  {
    LeadingZeros(zeros, a);
    if |a| >= 32 {
      var b := high + a;
      SuffixIsModulo(a, 32);
      SuffixIsModulo(b, 32);
      assert b[|b| - 32..] == a[|a| - 32..];
    }
  }

  /** The hashed amount field is the big-endian form of the amount modulo 2^256, whatever its length. */
  lemma {:induction false} AmountFieldValue(amount: bytes)
    ensures ValueBE(EncodeBE(ValueBE(amount) % Pow256(32), 32)) == ValueBE(amount) % Pow256(32)
  {
    ValueOfEncode(ValueBE(amount) % Pow256(32), 32);
    ModUnique(ValueBE(amount) % Pow256(32), Pow256(32), 0, ValueBE(amount) % Pow256(32));
  }
}
