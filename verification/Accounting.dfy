/**
 Two accountings of the value that is being held: the HTTP view and the metrics. Metadata that is empty
 or does not parse is `None` in a row.
 */
module Accounting {
  import opened Wrappers
  import opened Sequences
  import opened Bytes
  import opened Certificates
  import opened Text
  import opened Metadata
  import opened CertificateTable

  predicate HasAmount(e: ExitMeta) {
    e.amount.Some? && ParseUint(e.amount.value, TWO_TO_THE_64).Success?
  }

  /** The amount of a summarised exit: absent or malformed amounts count nothing. */
  function Amount(e: ExitMeta): nat {
    if HasAmount(e) then ParseUint(e.amount.value, TWO_TO_THE_64).value else 0
  }

  /** The token an exit is filed under; exits without an address share the empty one. */
  function TokenKey(e: ExitMeta): string {
    if e.tokenAddress.Some? then e.tokenAddress.value else ""
  }

  /** The amounts of the exits of one token. */
  function SumFor(es: seq<ExitMeta>, token: string): nat {
    if |es| == 0 then 0
    else SumFor(es[..|es| - 1], token) + if TokenKey(es[|es| - 1]) == token then Amount(es[|es| - 1]) else 0
  }

  function TokensOf(es: seq<ExitMeta>): set<string> {
    set k | 0 <= k < |es| && HasAmount(es[k]) :: TokenKey(es[k])
  }

  function Sum(es: seq<ExitMeta>): nat {
    if |es| == 0 then 0 else Sum(es[..|es| - 1]) + Amount(es[|es| - 1])
  }

  // ----- HTTP view ------------------------------------------------------------------------------

  ghost function SumOver(m: map<string, nat>, keys: set<string>): nat
    requires keys <= m.Keys
  {
    if keys == {} then 0
    else
      var k :| k in keys;
      m[k] + SumOver(m, keys - {k})
  }

  lemma {:induction false} SumPick(m: map<string, nat>, keys: set<string>, x: string)
    requires keys <= m.Keys && x in keys
    ensures SumOver(m, keys) == m[x] + SumOver(m, keys - {x})
    decreases keys
  {
    var k :| k in keys && SumOver(m, keys) == m[k] + SumOver(m, keys - {k});
    if k != x {
      SumPick(m, keys - {k}, x);
      SumPick(m, keys - {x}, k);
      assert keys - {k} - {x} == keys - {x} - {k};
    }
  }

  lemma {:induction false} SumSame(m: map<string, nat>, n: map<string, nat>, keys: set<string>)
    requires keys <= m.Keys && keys <= n.Keys
    requires forall k :: k in keys ==> m[k] == n[k]
    ensures SumOver(m, keys) == SumOver(n, keys)
    decreases keys
  {
    if keys != {} {
      var k :| k in keys;
      SumPick(m, keys, k);
      SumPick(n, keys, k);
      SumSame(m, n, keys - {k});
    }
  }

  function Get(m: map<string, nat>, k: string): nat {
    if k in m then m[k] else 0
  }

  lemma {:induction false} SumUpdate(m: map<string, nat>, k: string, amount: nat)
    ensures SumOver(m[k := Get(m, k) + amount], m.Keys + {k}) == SumOver(m, m.Keys) + amount
  {
    var n := m[k := Get(m, k) + amount];
    SumPick(n, m.Keys + {k}, k);
    SumSame(m, n, m.Keys - {k});
    if k in m {
      SumPick(m, m.Keys, k);
      assert m.Keys + {k} - {k} == m.Keys - {k};
    } else {
      assert m.Keys + {k} - {k} == m.Keys == m.Keys - {k};
    }
  }

  /** The totals `after` are the totals `before` with the exits added, each under its token. */
  ghost predicate GroupedFrom(before: map<string, nat>, after: map<string, nat>, exits: seq<ExitMeta>) {
    && after.Keys == before.Keys + TokensOf(exits)
    && forall token :: Get(after, token) == Get(before, token) + SumFor(exits, token)
  }

  function WithExit(totals: map<string, nat>, e: ExitMeta): map<string, nat> {
    if HasAmount(e) then totals[TokenKey(e) := Get(totals, TokenKey(e)) + Amount(e)] else totals
  }

  lemma GroupedByOne(before: map<string, nat>, totals: map<string, nat>, exits: seq<ExitMeta>, k: nat)
    requires k < |exits| && GroupedFrom(before, totals, exits[..k])
    ensures GroupedFrom(before, WithExit(totals, exits[k]), exits[..k + 1])
  {
    OneMoreExit(exits, k);
  }

  lemma {:induction false} SumWithExit(totals: map<string, nat>, e: ExitMeta)
    ensures SumOver(WithExit(totals, e), WithExit(totals, e).Keys) == SumOver(totals, totals.Keys) + Amount(e)
  {
    if HasAmount(e) {
      SumUpdate(totals, TokenKey(e), Amount(e));
      assert WithExit(totals, e).Keys == totals.Keys + {TokenKey(e)};
    }
  }

  function WithExits(before: map<string, nat>, exits: seq<ExitMeta>): map<string, nat> {
    if |exits| == 0 then before else WithExit(WithExits(before, exits[..|exits| - 1]), exits[|exits| - 1])
  }

  lemma {:induction false} WithExitsGroups(before: map<string, nat>, exits: seq<ExitMeta>)
    ensures GroupedFrom(before, WithExits(before, exits), exits)
  {
    if |exits| > 0 {
      var n := |exits| - 1;
      WithExitsGroups(before, exits[..n]);
      GroupedByOne(before, WithExits(before, exits[..n]), exits, n);
      assert exits[..n + 1] == exits;
    }
  }

  lemma {:induction false} WithExitsSum(before: map<string, nat>, exits: seq<ExitMeta>)
    ensures SumOver(WithExits(before, exits), WithExits(before, exits).Keys) == SumOver(before, before.Keys) + Sum(exits)
  {
    if |exits| > 0 {
      WithExitsSum(before, exits[..|exits| - 1]);
      SumWithExit(WithExits(before, exits[..|exits| - 1]), exits[|exits| - 1]);
    }
  }

  lemma SameTotals(m: map<string, nat>, n: map<string, nat>)
    requires m.Keys == n.Keys && forall token :: Get(m, token) == Get(n, token)
    ensures m == n
  {
    assert forall token :: token in m ==> m[token] == Get(n, token);
  }

  /** Grouping loses nothing: however the exits spread over tokens, the totals together grow by their sum. */
  lemma {:induction false} GroupingLosesNothing(before: map<string, nat>, after: map<string, nat>, exits: seq<ExitMeta>)
    requires GroupedFrom(before, after, exits)
    ensures SumOver(after, after.Keys) == SumOver(before, before.Keys) + Sum(exits)
  {
    WithExitsGroups(before, exits);
    WithExitsSum(before, exits);
    SameTotals(after, WithExits(before, exits));
  }

  /**
   Adds the exits of one list to the per-token totals: each token's total grows by the amounts of its own
   exits, and so all of them together by the amounts of the list.
   */
  method AddExits(exits: seq<ExitMeta>, before: map<string, nat>) returns (tokenTotals: map<string, nat>)
    ensures GroupedFrom(before, tokenTotals, exits)
    ensures SumOver(tokenTotals, tokenTotals.Keys) == SumOver(before, before.Keys) + Sum(exits)
  {
    tokenTotals := before;
    for k := 0 to |exits|
      invariant GroupedFrom(before, tokenTotals, exits[..k])
    {
      GroupedByOne(before, tokenTotals, exits, k);
      var token := if exits[k].tokenAddress.Some? then exits[k].tokenAddress.value else "";
      if exits[k].amount.Some? {
        var amount := ParseUint(exits[k].amount.value, TWO_TO_THE_64);
        if amount.Success? {
          tokenTotals := AddAmount(tokenTotals, token, amount.value);
        }
      }
    }
    assert exits[..|exits|] == exits;
    GroupingLosesNothing(before, tokenTotals, exits);
  }

  method AddAmount(before: map<string, nat>, token: string, amount: nat) returns (tokenTotals: map<string, nat>)
    ensures tokenTotals == before[token := Get(before, token) + amount]
  {
    if token !in before {
      tokenTotals := before[token := amount];
    } else {
      tokenTotals := before[token := before[token] + amount];
    }
  }

  lemma OneMoreExit(exits: seq<ExitMeta>, k: nat)
    requires k < |exits|
    ensures var e := exits[k];
            && Sum(exits[..k + 1]) == Sum(exits[..k]) + Amount(e)
            && TokensOf(exits[..k + 1]) == TokensOf(exits[..k]) + (if HasAmount(e) then {TokenKey(e)} else {})
            && forall token ::
                 SumFor(exits[..k + 1], token) == SumFor(exits[..k], token) + if TokenKey(e) == token then Amount(e) else 0
  {
    var more := exits[..k + 1];
    assert more[..k] == exits[..k];
    assert TokensOf(more) == TokensOf(exits[..k]) + (if HasAmount(exits[k]) then {TokenKey(exits[k])} else {}) by {
      assert forall j :: 0 <= j < k ==> more[j] == exits[..k][j];
      assert more[k] == exits[k];
    }
  }

  /** The exits with a token address, if it is this one. */
  function OfToken(es: seq<ExitMeta>, token: string): seq<ExitMeta> {
    if |es| == 0 then []
    else
      var front, last := OfToken(es[..|es| - 1], token), es[|es| - 1];
      if last.tokenAddress == Some(token) then front + [last] else front
  }

  lemma {:induction false} SumOfToken(es: seq<ExitMeta>, token: string)
    requires token != ""
    ensures SumFor(es, token) == Sum(OfToken(es, token))
  {
    if |es| > 0 {
      var front, last := es[..|es| - 1], es[|es| - 1];
      SumOfToken(front, token);
      if last.tokenAddress == Some(token) {
        var more := OfToken(front, token) + [last];
        assert more[..|more| - 1] == OfToken(front, token);
      }
    }
  }

  /** The totals one certificate shows for each of its tokens. */
  method TokenTotals(meta: Meta) returns (tokenTotals: map<string, nat>)
    ensures forall token ::
              Get(tokenTotals, token) == SumFor(meta.bridgeExits, token) + SumFor(meta.importedBridgeExits, token)
    ensures forall token :: token != "" ==>
              Get(tokenTotals, token) == Sum(OfToken(meta.bridgeExits, token)) + Sum(OfToken(meta.importedBridgeExits, token))
    ensures tokenTotals.Keys == TokensOf(meta.bridgeExits) + TokensOf(meta.importedBridgeExits)
    ensures SumOver(tokenTotals, tokenTotals.Keys) == Sum(meta.bridgeExits) + Sum(meta.importedBridgeExits)
  {
    tokenTotals := AddExits(meta.bridgeExits, map[]);
    tokenTotals := AddExits(meta.importedBridgeExits, tokenTotals);
    forall token | token != ""
      ensures SumFor(meta.bridgeExits, token) == Sum(OfToken(meta.bridgeExits, token))
      ensures SumFor(meta.importedBridgeExits, token) == Sum(OfToken(meta.importedBridgeExits, token))
    {
      SumOfToken(meta.bridgeExits, token);
      SumOfToken(meta.importedBridgeExits, token);
    }
  }

  /** The range over the per-token totals, in whatever order the map yields them. */
  method AddTokens(tokenTotals: map<string, nat>, start: nat) returns (total: nat)
    ensures total == start + SumOver(tokenTotals, tokenTotals.Keys)
  {
    total := start;
    var keys := tokenTotals.Keys;
    while keys != {}
      invariant keys <= tokenTotals.Keys
      invariant total + SumOver(tokenTotals, keys) == start + SumOver(tokenTotals, tokenTotals.Keys)
      decreases keys
    {
      var k :| k in keys;
      SumPick(tokenTotals, keys, k);
      total := total + tokenTotals[k];
      keys := keys - {k};
    }
  }

  // ----- The rows and what each accounting takes of them ----------------------------------------

  datatype Account =
    | Http        // exits and imported exits of pending certificates
    | Imported    // the imported exits alone
    | Metrics     // exits; the query has left out what is processed, and nothing tests it again

  predicate Counts(account: Account, row: Row, network: uint32) {
    && (account.Metrics? || row.processedAt.None?)
    && row.metadata.Some? && row.metadata.value.networkId == network
  }

  function Part(account: Account, row: Row, network: uint32): nat {
    if !Counts(account, row, network) then 0
    else
      var meta := row.metadata.value;
      match account
      case Http => Sum(meta.bridgeExits) + Sum(meta.importedBridgeExits)
      case Imported => Sum(meta.importedBridgeExits)
      case Metrics => Sum(meta.bridgeExits)
  }

  function PartIn(account: Account, network: uint32): Row -> nat {
    (row: Row) => Part(account, row, network)
  }

  function Total(account: Account, rows: Table, network: uint32): nat {
    SumOf(PartIn(account, network), rows)
  }

  lemma {:induction false} TotalSnoc(account: Account, rows: Table, row: Row, network: uint32)
    ensures Total(account, rows + [row], network) == Total(account, rows, network) + Part(account, row, network)
  {
    SumOfSnoc(PartIn(account, network), rows, row);
  }

  ghost predicate SomeRow(account: Account, rows: Table, network: uint32) {
    exists k :: 0 <= k < |rows| && Counts(account, rows[k], network)
  }

  lemma OneMoreRow(account: Account, rows: Table, k: nat)
    requires k < |rows|
    ensures forall n: uint32 ::
              && Total(account, rows[..k + 1], n) == Total(account, rows[..k], n) + Part(account, rows[k], n)
              && (SomeRow(account, rows[..k + 1], n) <==> SomeRow(account, rows[..k], n) || Counts(account, rows[k], n))
  {
    var more := rows[..k + 1];
    assert more == rows[..k] + [rows[k]];
    forall n: uint32
      ensures Total(account, more, n) == Total(account, rows[..k], n) + Part(account, rows[k], n)
      ensures SomeRow(account, more, n) <==> SomeRow(account, rows[..k], n) || Counts(account, rows[k], n)
    {
      TotalSnoc(account, rows[..k], rows[k], n);
      if SomeRow(account, rows[..k], n) {
        var j :| 0 <= j < k && Counts(account, rows[..k][j], n);
        assert Counts(account, more[j], n);
      }
      if SomeRow(account, more, n) {
        var j :| 0 <= j < |more| && Counts(account, more[j], n);
        assert j < k ==> Counts(account, rows[..k][j], n);
      }
      assert more[k] == rows[k];
    }
  }

  // ----- The totals as sums over lists of exits -------------------------------------------------

  /** `WHERE processed_at IS NULL`. */
  function Unprocessed(rows: Table): Table {
    if |rows| == 0 then []
    else
      var front, last := Unprocessed(rows[..|rows| - 1]), rows[|rows| - 1];
      if last.processedAt.None? then front + [last] else front
  }

  lemma {:induction false} UnprocessedMeaning(rows: Table, row: Row)
    ensures multiset(Unprocessed(rows))[row] == if row.processedAt.None? then multiset(rows)[row] else 0
  {
    if |rows| > 0 {
      var n := |rows| - 1;
      UnprocessedMeaning(rows[..n], row);
      assert rows == rows[..n] + [rows[n]];
    }
  }

  predicate OfNetwork(row: Row, network: uint32) {
    row.metadata.Some? && row.metadata.value.networkId == network
  }

  /** All exits of the certificates of a network. */
  function BridgeExits(rows: Table, network: uint32): seq<ExitMeta> {
    if |rows| == 0 then []
    else
      var front, last := BridgeExits(rows[..|rows| - 1], network), rows[|rows| - 1];
      if OfNetwork(last, network) then front + last.metadata.value.bridgeExits else front
  }

  /** All imported exits of the certificates of a network. */
  function ImportedExits(rows: Table, network: uint32): seq<ExitMeta> {
    if |rows| == 0 then []
    else
      var front, last := ImportedExits(rows[..|rows| - 1], network), rows[|rows| - 1];
      if OfNetwork(last, network) then front + last.metadata.value.importedBridgeExits else front
  }

  lemma {:induction false} SumConcat(xs: seq<ExitMeta>, ys: seq<ExitMeta>)
    ensures Sum(xs + ys) == Sum(xs) + Sum(ys)
  {
    if |ys| == 0 {
      assert xs + ys == xs;
    } else {
      var n := |ys| - 1;
      assert (xs + ys)[..|xs| + n] == xs + ys[..n];
      SumConcat(xs, ys[..n]);
    }
  }

  /** What one more row adds to each list. */
  lemma {:induction false} RowAdded(rows: Table, row: Row, network: uint32)
    ensures Sum(BridgeExits(rows + [row], network))
         == Sum(BridgeExits(rows, network)) + if OfNetwork(row, network) then Sum(row.metadata.value.bridgeExits) else 0
    ensures Sum(ImportedExits(rows + [row], network))
         == Sum(ImportedExits(rows, network)) + if OfNetwork(row, network) then Sum(row.metadata.value.importedBridgeExits) else 0
  {
    assert (rows + [row])[..|rows|] == rows;
    if OfNetwork(row, network) {
      SumConcat(BridgeExits(rows, network), row.metadata.value.bridgeExits);
      SumConcat(ImportedExits(rows, network), row.metadata.value.importedBridgeExits);
    }
  }

  lemma {:induction false} MetricsMeaning(rows: Table, network: uint32)
    ensures Total(Metrics, rows, network) == Sum(BridgeExits(rows, network))
  {
    if |rows| > 0 {
      var front, last := rows[..|rows| - 1], rows[|rows| - 1];
      MetricsMeaning(front, network);
      RowAdded(front, last, network);
      TotalSnoc(Metrics, front, last, network);
      assert rows == front + [last];
    }
  }

  /** What one more unprocessed row adds to the lists. */
  lemma {:induction false} PendingAdded(rows: Table, last: Row, network: uint32)
    requires last.processedAt.None?
    ensures Sum(BridgeExits(rows + [last], network)) + Sum(ImportedExits(rows + [last], network))
         == Sum(BridgeExits(rows, network)) + Sum(ImportedExits(rows, network)) + Part(Http, last, network)
    ensures Sum(ImportedExits(rows + [last], network)) == Sum(ImportedExits(rows, network)) + Part(Imported, last, network)
  {
    RowAdded(rows, last, network);
  }

  lemma {:induction false} UnprocessedSnoc(front: Table, last: Row)
    ensures Unprocessed(front + [last]) == if last.processedAt.None? then Unprocessed(front) + [last] else Unprocessed(front)
  {
    assert (front + [last])[..|front|] == front;
  }

  ghost predicate HttpSums(rows: Table, pending: Table, network: uint32) {
    && Total(Http, rows, network) == Sum(BridgeExits(pending, network)) + Sum(ImportedExits(pending, network))
    && Total(Imported, rows, network) == Sum(ImportedExits(pending, network))
  }

  lemma {:induction false} HttpSumsOne(rows: Table, pending: Table, last: Row, network: uint32)
    requires HttpSums(rows, pending, network)
    ensures HttpSums(rows + [last], if last.processedAt.None? then pending + [last] else pending, network)
  {
    TotalSnoc(Http, rows, last, network);
    TotalSnoc(Imported, rows, last, network);
    if last.processedAt.None? {
      PendingAdded(pending, last, network);
    }
  }

  lemma {:induction false} HttpMeaning(rows: Table, network: uint32)
    ensures HttpSums(rows, Unprocessed(rows), network)
  {
    if |rows| > 0 {
      var front, last := rows[..|rows| - 1], rows[|rows| - 1];
      HttpMeaning(front, network);
      UnprocessedSnoc(front, last);
      HttpSumsOne(front, Unprocessed(front), last, network);
      assert rows == front + [last];
    }
  }

  /** Grouping by token loses nothing: a chain total is the plain sum over its pending certificates. */
  method LoadChainTotals(rows: Table) returns (chainTotals: map<uint32, nat>)
    ensures forall n: uint32 :: n in chainTotals <==> n > 0 && SomeRow(Http, rows, n)
    ensures forall n: uint32 :: n in chainTotals ==>
              && chainTotals[n] == Total(Http, rows, n)
              && chainTotals[n] == Sum(BridgeExits(Unprocessed(rows), n)) + Sum(ImportedExits(Unprocessed(rows), n))
  {
    chainTotals := map[];
    for k := 0 to |rows|
      invariant forall n: uint32 :: n in chainTotals <==> n > 0 && SomeRow(Http, rows[..k], n)
      invariant forall n: uint32 :: n > 0 ==> Total(Http, rows[..k], n) == GetTotal(chainTotals, n)
    {
      OneMoreRow(Http, rows, k);
      chainTotals := AddCertificate(rows[k], chainTotals);
    }
    assert rows[..|rows|] == rows;
    HttpMeanings(rows);
  }

  lemma {:induction false} HttpMeanings(rows: Table)
    ensures forall n: uint32 ::
              Total(Http, rows, n) == Sum(BridgeExits(Unprocessed(rows), n)) + Sum(ImportedExits(Unprocessed(rows), n))
  {
    forall n: uint32
      ensures Total(Http, rows, n) == Sum(BridgeExits(Unprocessed(rows), n)) + Sum(ImportedExits(Unprocessed(rows), n))
    {
      HttpMeaning(rows, n);
    }
  }

  function GetTotal(m: map<uint32, nat>, n: uint32): nat {
    if n in m then m[n] else 0
  }

  /** What one row adds to the chain totals. */
  method AddCertificate(cert: Row, before: map<uint32, nat>) returns (chainTotals: map<uint32, nat>)
    ensures forall n: uint32 :: n in chainTotals <==> n in before || (n > 0 && Counts(Http, cert, n))
    ensures forall n: uint32 :: n > 0 ==> GetTotal(chainTotals, n) == GetTotal(before, n) + Part(Http, cert, n)
  {
    chainTotals := before;
    if cert.metadata.Some? {
      var meta := cert.metadata.value;
      var tokenTotals := TokenTotals(meta);
      if cert.processedAt.None? && meta.networkId > 0 {
        if meta.networkId !in chainTotals {
          chainTotals := chainTotals[meta.networkId := 0];
        }
        var total := AddTokens(tokenTotals, chainTotals[meta.networkId]);
        chainTotals := chainTotals[meta.networkId := total];
      }
    }
  }

  // ----- Metrics --------------------------------------------------------------------------------

  method UpdateMetrics(unprocessed: Table) returns (networks: map<uint32, nat>)
    ensures forall n: uint32 :: n in networks <==> SomeRow(Metrics, unprocessed, n)
    ensures forall n: uint32 :: n in networks ==>
              networks[n] == Total(Metrics, unprocessed, n) && networks[n] == Sum(BridgeExits(unprocessed, n))
  {
    networks := map[];
    for k := 0 to |unprocessed|
      invariant forall n: uint32 :: n in networks <==> SomeRow(Metrics, unprocessed[..k], n)
      invariant forall n: uint32 :: Total(Metrics, unprocessed[..k], n) == if n in networks then networks[n] else 0
    {
      OneMoreRow(Metrics, unprocessed, k);
      if unprocessed[k].metadata.Some? {
        var meta := unprocessed[k].metadata.value;
        if meta.networkId !in networks {
          networks := networks[meta.networkId := 0];
        }
        networks := AddAmounts(meta.bridgeExits, meta.networkId, networks);
      }
    }
    assert unprocessed[..|unprocessed|] == unprocessed;
    forall n: uint32
      ensures Total(Metrics, unprocessed, n) == Sum(BridgeExits(unprocessed, n))
    {
      MetricsMeaning(unprocessed, n);
    }
  }

  /** The inner loop: the amounts of the exits are added to the total of their network. */
  method AddAmounts(exits: seq<ExitMeta>, network: uint32, before: map<uint32, nat>) returns (networks: map<uint32, nat>)
    requires network in before
    ensures networks == before[network := before[network] + Sum(exits)]
  {
    networks := before;
    for j := 0 to |exits|
      invariant networks == before[network := before[network] + Sum(exits[..j])]
    {
      assert exits[..j + 1][..j] == exits[..j];
      if exits[j].amount.Some? {
        var amount := ParseUint(exits[j].amount.value, TWO_TO_THE_64);
        if amount.Success? {
          networks := networks[network := networks[network] + amount.value];
        }
      }
    }
    assert exits[..|exits|] == exits;
  }

  // ----- Agreement ------------------------------------------------------------------------------

  /** The order in which a query returns the rows does not matter. */
  lemma {:induction false} TotalOfPermutation(account: Account, xs: Table, ys: Table, network: uint32)
    requires multiset(xs) == multiset(ys)
    ensures Total(account, xs, network) == Total(account, ys, network)
  {
    SumOfPermutation(PartIn(account, network), xs, ys);
  }

  lemma {:induction false} SomeOfPermutation(account: Account, xs: Table, ys: Table, network: uint32)
    requires multiset(xs) == multiset(ys)
    ensures SomeRow(account, xs, network) ==> SomeRow(account, ys, network)
  {
    if k :| 0 <= k < |xs| && Counts(account, xs[k], network) {
      assert xs[k] in multiset(ys);
      var j :| 0 <= j < |ys| && ys[j] == xs[k];
    }
  }

  lemma {:induction false} SameNetworks(rows: Table, network: uint32)
    ensures SomeRow(Http, rows, network) <==> SomeRow(Metrics, Unprocessed(rows), network)
  {
    if |rows| > 0 {
      var n := |rows| - 1;
      SameNetworks(rows[..n], network);
      OneMoreRow(Http, rows, n);
      assert rows[..n + 1] == rows;
      if rows[n].processedAt.None? {
        var more := Unprocessed(rows[..n]) + [rows[n]];
        OneMoreRow(Metrics, more, |more| - 1);
        assert more[..|more| - 1] == Unprocessed(rows[..n]) && more[..|more| - 1 + 1] == more;
      }
    }
  }

  /**
   Over one state of the table: the HTTP view reads all rows, in whatever order, the metrics read the
   unprocessed ones, in whatever order. They show the same networks, but for network zero, and their totals
   differ by exactly the imported exits of the pending certificates.
   */
  lemma {:induction false} AccountingsAgree(rows: Table, listed: Table, unprocessed: Table, network: uint32)
    requires multiset(listed) == multiset(rows) && multiset(unprocessed) == multiset(Unprocessed(rows))
    ensures SomeRow(Http, listed, network) <==> SomeRow(Metrics, unprocessed, network)
    ensures Total(Http, listed, network) == Total(Metrics, unprocessed, network) + Sum(ImportedExits(Unprocessed(rows), network))
  {
    HttpMeaning(rows, network);
    TotalOfPermutation(Http, listed, rows, network);
    TotalOfPermutation(Metrics, unprocessed, Unprocessed(rows), network);
    MetricsMeaning(Unprocessed(rows), network);
    SomeOfPermutation(Http, listed, rows, network);
    SomeOfPermutation(Http, rows, listed, network);
    SomeOfPermutation(Metrics, unprocessed, Unprocessed(rows), network);
    SomeOfPermutation(Metrics, Unprocessed(rows), unprocessed, network);
    SameNetworks(rows, network);
  }

  // ----- Truncation -----------------------------------------------------------------------------

  /** The value on which a submission is routed: amounts of any size, not truncated. */
  function WithdrawalValue(exits: seq<BridgeExit>): nat {
    if |exits| == 0 then 0
    else WithdrawalValue(exits[..|exits| - 1]) + ValueBE(AmountBytes(exits[|exits| - 1]))
  }

  lemma AmountOfSummary(e: BridgeExit)
    ensures Amount(MetaOfExit(e)) == ValueBE(AmountBytes(e)) % TWO_TO_THE_64
  {
    if e.amount.Some? && |e.amount.value| > 0 {
      ParsePrinted(ValueBE(e.amount.value) % TWO_TO_THE_64, TWO_TO_THE_64);
    }
  }

  /** The parts above 64 bits. */
  function HighParts(exits: seq<BridgeExit>): nat {
    if |exits| == 0 then 0
    else HighParts(exits[..|exits| - 1]) + ValueBE(AmountBytes(exits[|exits| - 1])) / TWO_TO_THE_64
  }

  lemma {:induction false} SummaryLosesHighParts(exits: seq<BridgeExit>)
    ensures WithdrawalValue(exits) == Sum(MetaOfExits(exits)) + TWO_TO_THE_64 * HighParts(exits)
  {
    if |exits| > 0 {
      var n := |exits| - 1;
      assert MetaOfExits(exits)[..n] == MetaOfExits(exits[..n]);
      SummaryLosesHighParts(exits[..n]);
      AmountOfSummary(exits[n]);
    }
  }

  lemma {:induction false} NoHighParts(exits: seq<BridgeExit>)
    ensures HighParts(exits) == 0
            <==> forall k :: 0 <= k < |exits| ==> ValueBE(AmountBytes(exits[k])) < TWO_TO_THE_64
  {
    if |exits| > 0 {
      var n := |exits| - 1;
      NoHighParts(exits[..n]);
      assert forall k :: 0 <= k < n ==> exits[..n][k] == exits[k];
    }
  }

  lemma Truncated(whole: nat, kept: nat, d: nat, high: nat)
    requires d > 0 && whole == kept + d * high
    ensures kept % d == whole % d
    ensures kept == whole <==> high == 0
  {
    ModUnique(whole, d, kept / d + high, kept % d);
    assert high > 0 ==> d * high > 0;
  }

  /**
   What a certificate contributes to the metrics is congruent to its withdrawal value modulo 2^64, and
   is the value itself exactly when every amount fits in 64 bits.
   */
  lemma ContributionOfCertificate(c: Certificate)
    ensures Sum(MetaOf(c).bridgeExits) % TWO_TO_THE_64 == WithdrawalValue(c.bridgeExits) % TWO_TO_THE_64
    ensures Sum(MetaOf(c).bridgeExits) == WithdrawalValue(c.bridgeExits)
            <==> forall k :: 0 <= k < |c.bridgeExits| ==> ValueBE(AmountBytes(c.bridgeExits[k])) < TWO_TO_THE_64
  {
    SummaryLosesHighParts(c.bridgeExits);
    NoHighParts(c.bridgeExits);
    Truncated(WithdrawalValue(c.bridgeExits), Sum(MetaOfExits(c.bridgeExits)), TWO_TO_THE_64, HighParts(c.bridgeExits));
  }

  /** The low 64 bits of the amounts of a list of exits, added up. */
  function LowParts(exits: seq<BridgeExit>): nat {
    if |exits| == 0 then 0
    else LowParts(exits[..|exits| - 1]) + ValueBE(AmountBytes(exits[|exits| - 1])) % TWO_TO_THE_64
  }

  /** The same for the imported exits that hold an exit. */
  function ImportedLowParts(exits: seq<ImportedBridgeExit>): nat {
    if |exits| == 0 then 0
    else
      var front, last := ImportedLowParts(exits[..|exits| - 1]), exits[|exits| - 1];
      if last.bridgeExit.Some? then front + ValueBE(AmountBytes(last.bridgeExit.value)) % TWO_TO_THE_64 else front
  }

  lemma {:induction false} SumOfExits(exits: seq<BridgeExit>)
    ensures Sum(MetaOfExits(exits)) == LowParts(exits)
  {
    if |exits| > 0 {
      var n := |exits| - 1;
      assert MetaOfExits(exits)[..n] == MetaOfExits(exits[..n]);
      SumOfExits(exits[..n]);
      AmountOfSummary(exits[n]);
    }
  }

  lemma {:induction false} SumOfImported(exits: seq<ImportedBridgeExit>)
    ensures LowParts(PresentExits(exits)) == ImportedLowParts(exits)
  {
    if |exits| > 0 {
      var n := |exits| - 1;
      SumOfImported(exits[..n]);
      if exits[n].bridgeExit.Some? {
        var present := PresentExits(exits[..n]) + [exits[n].bridgeExit.value];
        assert present[..|PresentExits(exits[..n])|] == PresentExits(exits[..n]);
      }
    }
  }

  /**
   What one held certificate adds to the two accountings of its own network, and to no other: its amounts,
   each truncated to 64 bits, with the imported ones only in the HTTP view.
   */
  lemma HeldCertificateCounts(c: Certificate, rawProto: bytes, certId: bytes, now: int, network: uint32)
    ensures var row := NewRow(rawProto, certId, Some(MetaOf(c)), now);
            && Part(Metrics, row, network) == (if network == c.networkId then LowParts(c.bridgeExits) else 0)
            && Part(Http, row, network)
               == if network == c.networkId then LowParts(c.bridgeExits) + ImportedLowParts(c.importedBridgeExits) else 0
  {
    SumOfExits(c.bridgeExits);
    SumOfExits(PresentExits(c.importedBridgeExits));
    SumOfImported(c.importedBridgeExits);
  }
}
