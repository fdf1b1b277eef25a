/** The configured token prices: `network:address:dollars:multiplier` entries separated by commas. */
module Tokens {
  import opened Wrappers
  import opened Bytes
  import opened Text

  datatype TokenValue = TokenValue(originNetwork: uint32, address: string, dollarValue: uint64, multiplier: uint64) {
    function ID(): string {
      TokenID(originNetwork, address)
    }
  }

  function TokenID(network: uint32, address: string): string {
    FormatUint(network) + [':'] + Lower(address)
  }

  function ParseEntry(entry: string): Result<TokenValue> {
    var parts := Split(entry, ':');
    if |parts| != 4 then Failure
    else
      var originNetwork :- ParseUint(parts[0], TWO_TO_THE_32);
      if |parts[1]| != 40 then Failure
      else
        var value :- ParseUint(parts[2], TWO_TO_THE_64);
        var multiplier :- ParseUint(parts[3], TWO_TO_THE_64);
        Success(TokenValue(originNetwork, Lower(parts[1]), value, multiplier))
  }

  /** Entries are entered left to right, so the last one for an id wins; one bad entry spoils the list. */
  function ParseEntries(entries: seq<string>): Result<map<string, TokenValue>> {
    if |entries| == 0 then Success(map[])
    else
      var table :- ParseEntries(entries[..|entries| - 1]);
      var tv :- ParseEntry(entries[|entries| - 1]);
      Success(table[tv.ID() := tv])
  }

  method ParseTokenValues(tokenValues: string) returns (r: Result<map<string, TokenValue>>)
    ensures r == ParseEntries(Split(tokenValues, ','))
  {
    var result: map<string, TokenValue> := map[];
    var split := Split(tokenValues, ',');
    for k := 0 to |split|
      invariant ParseEntries(split[..k]) == Success(result)
    {
      assert split[..k + 1][..k] == split[..k];
      var tv := ParseEntry(split[k]);
      if tv.Failure? {
        FailureSticks(split, k + 1);
        return Failure;
      }
      result := result[tv.value.ID() := tv.value];
    }
    assert split[..|split|] == split;
    return Success(result);
  }

  lemma {:induction false} FailureSticks(entries: seq<string>, k: nat)
    requires k <= |entries| && ParseEntries(entries[..k]).Failure?
    ensures ParseEntries(entries).Failure?
    decreases |entries|
  {
    if k < |entries| {
      assert entries[..|entries| - 1][..k] == entries[..k];
      FailureSticks(entries[..|entries| - 1], k);
    } else {
      assert entries[..k] == entries;
    }
  }

  // ----- Ids are injective ----------------------------------------------------------------------

  lemma {:induction false} FirstSeparator(p: string, x: string, q: string, y: string, sep: char)
    requires sep !in p && sep !in q
    requires p + [sep] + x == q + [sep] + y
    ensures p == q && x == y
  {
    var s, t := p + [sep] + x, q + [sep] + y;
    assert s[|p|] == sep && t[|q|] == sep;
    assert forall k :: 0 <= k < |p| ==> s[k] == p[k];
    assert forall k :: 0 <= k < |q| ==> t[k] == q[k];
    assert |p| == |q|;
    assert p == s[..|p|] && q == t[..|q|];
    assert x == s[|p| + 1..] && y == t[|q| + 1..];
  }

  /** An id names exactly one pair of a network and an address up to letter case. */
  lemma IDInjective(n: uint32, a: string, m: uint32, b: string)
    ensures TokenID(n, a) == TokenID(m, b) <==> n == m && Lower(a) == Lower(b)
  {
    if TokenID(n, a) == TokenID(m, b) {
      FirstSeparator(FormatUint(n), Lower(a), FormatUint(m), Lower(b), ':');
      ParseFormat(n);
      ParseFormat(m);
    }
  }

  // ----- Round trip -----------------------------------------------------------------------------

  /** Addresses a list can carry. */
  predicate Printable(t: TokenValue) {
    |t.address| == 40 && ',' !in t.address && ':' !in t.address
  }

  function Fields(t: TokenValue): seq<string> {
    [FormatUint(t.originNetwork), t.address, FormatUint(t.dollarValue), FormatUint(t.multiplier)]
  }

  function Print(t: TokenValue): string {
    Join(Fields(t), ':')
  }

  function PrintAll(ts: seq<TokenValue>): seq<string> {
    seq(|ts|, k requires 0 <= k < |ts| => Print(ts[k]))
  }

  function Lowered(t: TokenValue): TokenValue {
    t.(address := Lower(t.address))
  }

  /** The last token of the list for a network and an address, compared without regard to case. */
  function LastFor(ts: seq<TokenValue>, network: uint32, address: string): Option<TokenValue> {
    if |ts| == 0 then None
    else
      var t := ts[|ts| - 1];
      if t.originNetwork == network && Lower(t.address) == Lower(address) then Some(Lowered(t))
      else LastFor(ts[..|ts| - 1], network, address)
  }

  function Lookup(table: map<string, TokenValue>, id: string): Option<TokenValue> {
    if id in table then Some(table[id]) else None
  }

  lemma PrintedHasNoComma(t: TokenValue)
    requires Printable(t)
    ensures ',' !in Print(t)
  {
    var f := Fields(t);
    assert Join(f[3..], ':') == f[3];
    assert Join(f[2..], ':') == f[2] + [':'] + Join(f[3..], ':') by {
      assert f[2..][1..] == f[3..];
    }
    assert Join(f[1..], ':') == f[1] + [':'] + Join(f[2..], ':') by {
      assert f[1..][1..] == f[2..];
    }
    assert Print(t) == f[0] + [':'] + Join(f[1..], ':');
    forall k | 0 <= k < |f|
      ensures ',' !in f[k]
    {
      assert k != 1 ==> AllDigits(f[k]);
    }
  }

  /** Network, address, dollars, multiplier, in this order. */
  lemma PrintForm(t: TokenValue)
    ensures Print(t) == FormatUint(t.originNetwork) + ":" + t.address + ":" + FormatUint(t.dollarValue) + ":"
                        + FormatUint(t.multiplier)
  {
    var f := Fields(t);
    assert f[1..][1..] == f[2..] && f[2..][1..] == f[3..];
    assert Join(f[3..], ':') == f[3];
    assert Join(f[2..], ':') == f[2] + ":" + f[3];
    assert Join(f[1..], ':') == f[1] + ":" + (f[2] + ":" + f[3]);
    assert Print(t) == f[0] + ":" + (f[1] + ":" + (f[2] + ":" + f[3]));
  }

  lemma ParsePrintedEntry(t: TokenValue)
    requires Printable(t)
    ensures ParseEntry(FormatUint(t.originNetwork) + ":" + t.address + ":" + FormatUint(t.dollarValue) + ":"
                       + FormatUint(t.multiplier))
         == Success(TokenValue(t.originNetwork, Lower(t.address), t.dollarValue, t.multiplier))
    ensures ParseEntry(Print(t)) == Success(Lowered(t))
  {
    PrintForm(t);
    forall k | 0 <= k < 4
      ensures ':' !in Fields(t)[k]
    {
      assert k != 1 ==> AllDigits(Fields(t)[k]);
    }
    SplitJoin(Fields(t), ':');
    ParsePrinted(t.originNetwork, TWO_TO_THE_32);
    ParsePrinted(t.dollarValue, TWO_TO_THE_64);
    ParsePrinted(t.multiplier, TWO_TO_THE_64);
  }

  lemma {:induction false} ParseAllPrinted(ts: seq<TokenValue>, network: uint32, address: string)
    requires forall k :: 0 <= k < |ts| ==> Printable(ts[k])
    ensures ParseEntries(PrintAll(ts)).Success?
    ensures Lookup(ParseEntries(PrintAll(ts)).value, TokenID(network, address)) == LastFor(ts, network, address)
  {
    if |ts| > 0 {
      var n := |ts| - 1;
      assert PrintAll(ts)[..n] == PrintAll(ts[..n]);
      ParseAllPrinted(ts[..n], network, address);
      ParsePrintedEntry(ts[n]);
      LowerIdempotent(ts[n].address);
      IDInjective(ts[n].originNetwork, ts[n].address, network, address);
    }
  }

  lemma {:induction false} TableIsKeyedById(entries: seq<string>)
    requires ParseEntries(entries).Success?
    ensures var table := ParseEntries(entries).value;
            forall id :: id in table ==> table[id].ID() == id && |table[id].address| == 40
  {
    if |entries| > 0 {
      TableIsKeyedById(entries[..|entries| - 1]);
    }
  }

  /**
   Parsing the printing of a nonempty list gives the table that holds, under the id of each network
   and address, the last token of the list for that pair, and nothing else.
   */
  lemma {:induction false} TokensRoundTrip(ts: seq<TokenValue>)
    requires |ts| > 0
    requires forall k :: 0 <= k < |ts| ==> Printable(ts[k])
    ensures var r := ParseEntries(Split(Join(PrintAll(ts), ','), ','));
            && r.Success?
            && (forall network: uint32, address: string ::
                  Lookup(r.value, TokenID(network, address)) == LastFor(ts, network, address))
            && (forall id :: id in r.value ==> r.value[id].ID() == id)
  {
    forall k | 0 <= k < |ts|
      ensures ',' !in PrintAll(ts)[k]
    {
      PrintedHasNoComma(ts[k]);
    }
    SplitJoin(PrintAll(ts), ',');
    forall network: uint32, address: string
      ensures ParseEntries(PrintAll(ts)).Success?
      ensures Lookup(ParseEntries(PrintAll(ts)).value, TokenID(network, address)) == LastFor(ts, network, address)
    {
      ParseAllPrinted(ts, network, address);
    }
    ParseAllPrinted(ts, 0, "");
    TableIsKeyedById(PrintAll(ts));
  }
}
