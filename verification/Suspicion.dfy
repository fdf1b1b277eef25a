/**
 The dollar value of a certificate and the verdict on it.

 The program adds floor(amount / multiplier) * dollars over the exits, stops at the first exit whose
 token has no configured price, and compares the sum with the configured limit.
 */
module Suspicion {
  import opened Wrappers
  import opened Sequences
  import opened Bytes
  import opened Certificates
  import opened Text
  import opened Tokens
  import opened Marshal
  import opened HexText

  type Prices = map<string, TokenValue>

  /** How the check ends: a verdict, an error for the submitter, or a panic. */
  datatype Outcome = Verdict(suspicious: bool) | Failed | Panics

  /** `common.BytesToAddress(b).Hex()` without its prefix, in lower case. */
  function AddressText(address: bytes): string {
    HexPrint(EncodeBE(ValueBE(address), 20))
  }

  /** Exits without token information or token address are passed over. */
  predicate Counted(e: BridgeExit) {
    e.tokenInfo.Some? && e.tokenInfo.value.originTokenAddress.Some?
  }

  function PriceID(e: BridgeExit): string
    requires Counted(e)
  {
    TokenID(e.tokenInfo.value.originNetwork, AddressText(e.tokenInfo.value.originTokenAddress.value))
  }

  predicate Unpriced(prices: Prices, e: BridgeExit) {
    Counted(e) && PriceID(e) !in prices
  }

  /** The token is priced with multiplier zero, by which the program would divide. */
  predicate Breaks(prices: Prices, e: BridgeExit) {
    Counted(e) && PriceID(e) in prices && prices[PriceID(e)].multiplier == 0
  }

  predicate Priced(prices: Prices, e: BridgeExit) {
    Counted(e) && PriceID(e) in prices && prices[PriceID(e)].multiplier > 0
  }

  function FloorTimes(amount: nat, multiplier: nat, dollars: nat): nat
    requires multiplier > 0
  {
    amount / multiplier * dollars
  }

  function Worth(prices: Prices, e: BridgeExit): nat {
    if Priced(prices, e) then
      var detail := prices[PriceID(e)];
      FloorTimes(ValueBE(AmountBytes(e)), detail.multiplier, detail.dollarValue)
    else 0
  }

  function WorthIn(prices: Prices): BridgeExit -> nat {
    (e: BridgeExit) => Worth(prices, e)
  }

  function Total(prices: Prices, exits: seq<BridgeExit>): nat {
    SumOf(WorthIn(prices), exits)
  }

  ghost predicate SomeUnpriced(prices: Prices, exits: seq<BridgeExit>) {
    exists e :: e in exits && Unpriced(prices, e)
  }

  /** The verdict of a well-configured proxy. */
  ghost predicate Suspicious(prices: Prices, limit: nat, exits: seq<BridgeExit>) {
    SomeUnpriced(prices, exits) || Total(prices, exits) > limit
  }

  /** The first exit at which the scan stops is unpriced (the certificate is locked) or breaks it. */
  ghost predicate StopsUnpriced(prices: Prices, exits: seq<BridgeExit>) {
    exists k :: 0 <= k < |exits| && Unpriced(prices, exits[k]) && forall j :: 0 <= j < k ==> !Breaks(prices, exits[j])
  }

  ghost predicate StopsBroken(prices: Prices, exits: seq<BridgeExit>) {
    exists k :: 0 <= k < |exits| && Breaks(prices, exits[k]) && forall j :: 0 <= j < k ==> !Unpriced(prices, exits[j])
  }

  function LimitOf(suspiciousValue: string): Result<nat> {
    ParseUint(suspiciousValue, TWO_TO_THE_64)
  }

  function PricesOf(tokenValues: string): Result<Prices> {
    ParseEntries(Split(tokenValues, ','))
  }

  /** The check for any configuration texts: the documented verdict, and when it fails or panics instead. */
  ghost function Check(suspiciousValue: string, tokenValues: string, exits: seq<BridgeExit>): Outcome {
    var limit, prices := LimitOf(suspiciousValue), PricesOf(tokenValues);
    if suspiciousValue != "" && limit.Failure? then Failed
    else if suspiciousValue == "" && tokenValues == "" then Verdict(true)
    else if prices.Failure? then Failed
    else if StopsUnpriced(prices.value, exits) then Verdict(true)
    else if StopsBroken(prices.value, exits) || suspiciousValue == "" then Panics
    else Verdict(Suspicious(prices.value, limit.value, exits))
  }

  method CheckForSuspiciousValue(suspiciousValue: string, tokenValues: string, exits: seq<BridgeExit>)
    returns (outcome: Outcome)
    ensures outcome == Check(suspiciousValue, tokenValues, exits)
  {
    var susLimit: Option<nat> := None;
    if suspiciousValue != "" {
      var parsed := ParseUint(suspiciousValue, TWO_TO_THE_64);
      if parsed.Failure? {
        return Failed;
      }
      susLimit := Some(parsed.value);
    }
    if |suspiciousValue| == 0 && |tokenValues| == 0 {
      return Verdict(true);
    }
    var parsedTokenValues := ParseTokenValues(tokenValues);
    if parsedTokenValues.Failure? {
      return Failed;
    }
    outcome := Scan(parsedTokenValues.value, susLimit, exits);
  }

  /** The loop over the exits. */
  method Scan(prices: Prices, susLimit: Option<nat>, exits: seq<BridgeExit>) returns (outcome: Outcome)
    ensures outcome == if StopsUnpriced(prices, exits) then Verdict(true)
                       else if StopsBroken(prices, exits) || susLimit.None? then Panics
                       else Verdict(Suspicious(prices, susLimit.value, exits))
  {
    var totalValue: nat := 0;
    for k := 0 to |exits|
      invariant totalValue == Total(prices, exits[..k])
      invariant forall j :: 0 <= j < k ==> !Unpriced(prices, exits[j]) && !Breaks(prices, exits[j])
    {
      ScanStep(prices, exits, k);
      var bridgeExit := exits[k];
      if bridgeExit.tokenInfo.None? {
        continue;
      }
      if bridgeExit.tokenInfo.value.originTokenAddress.None? {
        continue;
      }
      var id := PriceID(bridgeExit);
      if id !in prices {
        return Verdict(true);
      }
      if prices[id].multiplier == 0 {
        return Panics;
      }
      var asFullToken := ValueBE(AmountBytes(bridgeExit)) / prices[id].multiplier;
      totalValue := totalValue + asFullToken * prices[id].dollarValue;
    }
    ScanEnd(prices, exits);
    outcome := if susLimit.None? then Panics else Verdict(totalValue > susLimit.value);
  }

  lemma {:induction false} ScanStep(prices: Prices, exits: seq<BridgeExit>, k: nat)
    requires k < |exits|
    requires forall j :: 0 <= j < k ==> !Unpriced(prices, exits[j]) && !Breaks(prices, exits[j])
    ensures Total(prices, exits[..k + 1]) == Total(prices, exits[..k]) + Worth(prices, exits[k])
    ensures Unpriced(prices, exits[k]) ==> StopsUnpriced(prices, exits)
    ensures Breaks(prices, exits[k]) ==> StopsBroken(prices, exits) && !StopsUnpriced(prices, exits)
  {
    assert exits[..k + 1] == exits[..k] + [exits[k]];
    TotalSnoc(prices, exits[..k], exits[k]);
    ScanStops(prices, exits, k);
  }

  lemma NotBoth(prices: Prices, e: BridgeExit)
    ensures !(Unpriced(prices, e) && Breaks(prices, e))
  {
  }

  lemma {:induction false} ScanStops(prices: Prices, exits: seq<BridgeExit>, k: nat)
    requires k < |exits|
    requires forall j :: 0 <= j < k ==> !Unpriced(prices, exits[j]) && !Breaks(prices, exits[j])
    ensures Unpriced(prices, exits[k]) ==> StopsUnpriced(prices, exits)
    ensures Breaks(prices, exits[k]) ==> StopsBroken(prices, exits) && !StopsUnpriced(prices, exits)
  {
    NotBoth(prices, exits[k]);
    if StopsUnpriced(prices, exits) {
      var m :| 0 <= m < |exits| && Unpriced(prices, exits[m]) && forall j :: 0 <= j < m ==> !Breaks(prices, exits[j]);
      assert m >= k;
      assert m > k ==> !Breaks(prices, exits[k]);
    }
  }

  lemma ScanEnd(prices: Prices, exits: seq<BridgeExit>)
    requires forall j :: 0 <= j < |exits| ==> !Unpriced(prices, exits[j]) && !Breaks(prices, exits[j])
    ensures exits[..|exits|] == exits
    ensures !StopsUnpriced(prices, exits) && !StopsBroken(prices, exits) && !SomeUnpriced(prices, exits)
  {
  }

  predicate PositiveMultipliers(prices: Prices) {
    forall id :: id in prices ==> prices[id].multiplier > 0
  }

  /** With positive multipliers the scan never breaks, and it stops exactly if some exit is unpriced. */
  lemma StopsMeaning(prices: Prices, exits: seq<BridgeExit>)
    requires PositiveMultipliers(prices)
    ensures StopsUnpriced(prices, exits) <==> SomeUnpriced(prices, exits)
    ensures !StopsBroken(prices, exits)
  {
    if k :| 0 <= k < |exits| && Unpriced(prices, exits[k]) {
      assert StopsUnpriced(prices, exits);
      assert exits[k] in exits;
    }
  }

  lemma NoPrices()
    ensures PricesOf("").Failure?
  {
    assert Split("", ',') == [""];
    assert Split("", ':') == [""];
    assert [""][..0] == [];
  }

  /**
   With a limit, a parsed price list and positive multipliers the check gives exactly the documented
   verdict. It fails exactly if a text that is needed does not parse. With neither text configured
   everything is suspicious; with a limit alone the check fails.
   With prices alone it fails exactly if they do not parse; otherwise the verdict is "suspicious" exactly
   if the scan stops at an unpriced exit, and everything else ends in a panic.
   */
  lemma {:induction false} VerdictMeaning(suspiciousValue: string, tokenValues: string, exits: seq<BridgeExit>)
    ensures var limit, prices := LimitOf(suspiciousValue), PricesOf(tokenValues);
            limit.Success? && prices.Success? && PositiveMultipliers(prices.value)
            ==> Check(suspiciousValue, tokenValues, exits) == Verdict(Suspicious(prices.value, limit.value, exits))
    ensures Check(suspiciousValue, tokenValues, exits) == Failed <==>
              (suspiciousValue != "" && LimitOf(suspiciousValue).Failure?)
              || ((suspiciousValue != "" || tokenValues != "") && PricesOf(tokenValues).Failure?)
    ensures suspiciousValue == "" && tokenValues == "" ==> Check(suspiciousValue, tokenValues, exits) == Verdict(true)
    ensures suspiciousValue != "" && tokenValues == "" ==> Check(suspiciousValue, tokenValues, exits) == Failed
    ensures suspiciousValue == "" && tokenValues != "" ==>
              var prices := PricesOf(tokenValues);
              var outcome := Check(suspiciousValue, tokenValues, exits);
              && (outcome == Failed <==> prices.Failure?)
              && (outcome == Verdict(true) <==> prices.Success? && StopsUnpriced(prices.value, exits))
              && (outcome == Panics <==> prices.Success? && !StopsUnpriced(prices.value, exits))
              && (prices.Success? && PositiveMultipliers(prices.value) ==>
                    outcome == if SomeUnpriced(prices.value, exits) then Verdict(true) else Panics)
  {
    var prices := PricesOf(tokenValues);
    if prices.Success? && PositiveMultipliers(prices.value) {
      StopsMeaning(prices.value, exits);
    }
    NoPrices();
  }

  // ----- When everything is suspicious ----------------------------------------------------------

  /** Every certificate is suspicious, the one without exits included, exactly if both texts are missing. */
  lemma AllSuspicious(suspiciousValue: string, tokenValues: string)
    ensures (forall exits :: Check(suspiciousValue, tokenValues, exits) == Verdict(true))
            <==> suspiciousValue == "" && tokenValues == ""
  {
    assert Check(suspiciousValue, tokenValues, []) == Verdict(true) ==> suspiciousValue == "" && tokenValues == "" by {
      var prices := PricesOf(tokenValues);
      if prices.Success? {
        assert !SomeUnpriced(prices.value, []) && !StopsUnpriced(prices.value, []);
      }
    }
  }

  predicate AllCounted(exits: seq<BridgeExit>) {
    forall e :: e in exits ==> Counted(e)
  }

  /** Every certificate with exits is suspicious. */
  ghost predicate LocksExits(suspiciousValue: string, tokenValues: string) {
    forall exits :: exits != [] && AllCounted(exits) ==> Check(suspiciousValue, tokenValues, exits) == Verdict(true)
  }

  predicate Readable(suspiciousValue: string, tokenValues: string) {
    (suspiciousValue == "" || LimitOf(suspiciousValue).Success?) && PricesOf(tokenValues).Success?
  }

  /** No configured address is hexadecimal, so none is the address of a token. */
  predicate Unmatchable(prices: Prices) {
    forall id :: id in prices ==> !AllHex(prices[id].address)
  }

  /** An exit of a configured token; its address is the configured text decoded. */
  function ExitOf(t: TokenValue, amount: bytes): BridgeExit {
    var address := DecodeString(t.address);
    BridgeExit(LEAF_TYPE_TRANSFER,
               Some(TokenInfo(t.originNetwork, Some(if address.Success? then address.value else []))),
               0, Some([]), Some(amount), None)
  }

  lemma ExitOfIsPriced(tokenValues: string, id: string, amount: bytes)
    requires PricesOf(tokenValues).Success? && id in PricesOf(tokenValues).value
    requires AllHex(PricesOf(tokenValues).value[id].address)
    ensures var e := ExitOf(PricesOf(tokenValues).value[id], amount);
            Counted(e) && PriceID(e) == id
  {
    var t := PricesOf(tokenValues).value[id];
    var e := ExitOf(t, amount);
    TableIsKeyedById(Split(tokenValues, ','));
    DecodeMeaning(t.address, 20);
    var address := DecodeString(t.address).value;
    ValueBound(address);
    ModUnique(ValueBE(address), Pow256(20), 0, ValueBE(address));
    PricedByAddress(t, e);
  }

  /** A priced exit has a hexadecimal configured address. */
  lemma PricedIsHex(tokenValues: string, e: BridgeExit)
    requires PricesOf(tokenValues).Success?
    requires Counted(e) && PriceID(e) in PricesOf(tokenValues).value
    ensures AllHex(PricesOf(tokenValues).value[PriceID(e)].address)
  {
    var t := PricesOf(tokenValues).value[PriceID(e)];
    var token := e.tokenInfo.value;
    TableIsKeyedById(Split(tokenValues, ','));
    IDInjective(t.originNetwork, t.address, token.originNetwork, AddressText(token.originTokenAddress.value));
    SameCaseSameHex(t.address, AddressText(token.originTokenAddress.value));
  }

  lemma {:induction false} TotalOfOne(prices: Prices, e: BridgeExit)
    ensures Total(prices, [e]) == Worth(prices, e)
  {
    TotalSnoc(prices, [], e);
    assert [] + [e] == [e];
  }

  /** A scan of one priced exit. */
  lemma {:induction false} OneExit(prices: Prices, e: BridgeExit)
    requires Counted(e) && PriceID(e) in prices
    ensures !StopsUnpriced(prices, [e]) && !SomeUnpriced(prices, [e])
    ensures StopsBroken(prices, [e]) <==> prices[PriceID(e)].multiplier == 0
    ensures Total(prices, [e]) == Worth(prices, e)
  {
    assert [e][0] == e && [e][..0] == [];
    TotalOfOne(prices, e);
    if prices[PriceID(e)].multiplier == 0 {
      assert Breaks(prices, [e][0]);
    }
  }

  /**
   Every certificate with exits is suspicious exactly if both texts are missing, or both can be read and no
   configured address is hexadecimal.
   */
  lemma LocksExitsMeaning(suspiciousValue: string, tokenValues: string)
    ensures LocksExits(suspiciousValue, tokenValues)
            <==> (suspiciousValue == "" && tokenValues == "")
                 || (Readable(suspiciousValue, tokenValues) && Unmatchable(PricesOf(tokenValues).value))
  {
    if suspiciousValue != "" || tokenValues != "" {
      if !Readable(suspiciousValue, tokenValues) {
        var e := ExitOf(TokenValue(0, "", 0, 0), []);
        assert AllCounted([e]) && Check(suspiciousValue, tokenValues, [e]) == Failed;
      } else if Unmatchable(PricesOf(tokenValues).value) {
        forall exits | exits != [] && AllCounted(exits)
          ensures Check(suspiciousValue, tokenValues, exits) == Verdict(true)
        {
          UnmatchableLocks(tokenValues, exits);
        }
      } else {
        var id :| id in PricesOf(tokenValues).value && AllHex(PricesOf(tokenValues).value[id].address);
        FreeExit(suspiciousValue, tokenValues, id);
      }
    }
  }

  lemma UnmatchableLocks(tokenValues: string, exits: seq<BridgeExit>)
    requires PricesOf(tokenValues).Success? && Unmatchable(PricesOf(tokenValues).value)
    requires exits != [] && AllCounted(exits)
    ensures StopsUnpriced(PricesOf(tokenValues).value, exits)
  {
    var prices := PricesOf(tokenValues).value;
    assert exits[0] in exits;
    if PriceID(exits[0]) in prices {
      PricedIsHex(tokenValues, exits[0]);
    }
    assert Unpriced(prices, exits[0]);
  }

  /** The check when both texts can be read and not both are missing. */
  lemma CheckOfReadable(suspiciousValue: string, tokenValues: string, exits: seq<BridgeExit>)
    requires Readable(suspiciousValue, tokenValues) && (suspiciousValue != "" || tokenValues != "")
    ensures var prices := PricesOf(tokenValues).value;
            Check(suspiciousValue, tokenValues, exits)
            == if StopsUnpriced(prices, exits) then Verdict(true)
               else if StopsBroken(prices, exits) || suspiciousValue == "" then Panics
               else Verdict(Suspicious(prices, LimitOf(suspiciousValue).value, exits))
  {
    NoPrices();
  }

  /** The check of one exit in a configured token. */
  lemma CheckOfOne(suspiciousValue: string, tokenValues: string, e: BridgeExit)
    requires Readable(suspiciousValue, tokenValues)
    requires Counted(e) && PriceID(e) in PricesOf(tokenValues).value
    ensures Check(suspiciousValue, tokenValues, [e])
         == if PricesOf(tokenValues).value[PriceID(e)].multiplier == 0 || suspiciousValue == "" then Panics
            else Verdict(Worth(PricesOf(tokenValues).value, e) > LimitOf(suspiciousValue).value)
  {
    NoPrices();
    OneExit(PricesOf(tokenValues).value, e);
  }

  /** An exit of amount zero in a configured token is never found suspicious. */
  lemma FreeExit(suspiciousValue: string, tokenValues: string, id: string)
    requires Readable(suspiciousValue, tokenValues) && id in PricesOf(tokenValues).value
    requires AllHex(PricesOf(tokenValues).value[id].address)
    ensures var exits := [ExitOf(PricesOf(tokenValues).value[id], [])];
            AllCounted(exits) && Check(suspiciousValue, tokenValues, exits) != Verdict(true)
  {
    var e := ExitOf(PricesOf(tokenValues).value[id], []);
    ExitOfIsPriced(tokenValues, id, []);
    CheckOfOne(suspiciousValue, tokenValues, e);
    NothingWorth(PricesOf(tokenValues).value, e);
  }

  lemma NothingWorth(prices: Prices, e: BridgeExit)
    requires AmountBytes(e) == []
    ensures Worth(prices, e) == 0
  {
  }

  /** Looking a price up under its textual id is looking it up under the network and address pair. */
  lemma {:induction false} PriceByPair(ts: seq<TokenValue>, e: BridgeExit)
    requires |ts| > 0 && forall k :: 0 <= k < |ts| ==> Printable(ts[k])
    requires Counted(e)
    ensures var r := ParseEntries(Split(Join(PrintAll(ts), ','), ','));
            var token := e.tokenInfo.value;
            r.Success? &&
            Lookup(r.value, PriceID(e)) == LastFor(ts, token.originNetwork, AddressText(token.originTokenAddress.value))
  {
    TokensRoundTrip(ts);
  }

  /** A configured address, in either letter case, prices an exit exactly when it denotes the exit's 20 bytes. */
  lemma PricedByAddress(t: TokenValue, e: BridgeExit)
    requires Counted(e)
    requires |t.address| == 40 && AllHex(t.address)
    ensures t.ID() == PriceID(e)
            <==> t.originNetwork == e.tokenInfo.value.originNetwork
                 && HexValue(t.address) == ValueBE(e.tokenInfo.value.originTokenAddress.value) % Pow256(20)
  {
    var address := e.tokenInfo.value.originTokenAddress.value;
    var field := EncodeBE(ValueBE(address), 20);
    IDInjective(t.originNetwork, t.address, e.tokenInfo.value.originNetwork, HexPrint(field));
    SameDigits(t.address, HexPrint(field));
    PrintedValue(field);
    ValueOfEncode(ValueBE(address), 20);
  }

  // ----- The order of the exits does not matter -------------------------------------------------

  lemma TotalRemove(prices: Prices, exits: seq<BridgeExit>, k: nat)
    requires k < |exits|
    ensures Total(prices, exits) == Worth(prices, exits[k]) + Total(prices, exits[..k] + exits[k + 1..])
  {
    SumOfRemove(WorthIn(prices), exits, k);
  }

  lemma {:induction false} TotalOfPermutation(prices: Prices, xs: seq<BridgeExit>, ys: seq<BridgeExit>)
    requires multiset(xs) == multiset(ys)
    ensures Total(prices, xs) == Total(prices, ys)
  {
    SumOfPermutation(WorthIn(prices), xs, ys);
  }

  lemma VerdictOfPermutation(prices: Prices, limit: nat, xs: seq<BridgeExit>, ys: seq<BridgeExit>)
    requires multiset(xs) == multiset(ys)
    ensures Suspicious(prices, limit, xs) <==> Suspicious(prices, limit, ys)
  {
    TotalOfPermutation(prices, xs, ys);
    forall e: BridgeExit
      ensures e in xs <==> e in ys
    {
      assert e in multiset(xs) <==> e in multiset(ys);
    }
  }

  // ----- Adding exits ---------------------------------------------------------------------------

  lemma {:induction false} TotalOfSum(prices: Prices, xs: seq<BridgeExit>, ys: seq<BridgeExit>)
    ensures Total(prices, xs + ys) == Total(prices, xs) + Total(prices, ys)
  {
    SumOfConcat(WorthIn(prices), xs, ys);
  }

  /** More exits, wherever they stand, or a lower limit never clear a suspicious certificate. */
  lemma NeverCleared(prices: Prices, limit: nat, lower: nat, xs: seq<BridgeExit>, more: seq<BridgeExit>, ys: seq<BridgeExit>)
    requires lower <= limit
    requires multiset(ys) == multiset(xs + more)
    requires Suspicious(prices, limit, xs)
    ensures Suspicious(prices, lower, ys)
  {
    TotalOfSum(prices, xs, more);
    if SomeUnpriced(prices, xs) {
      var e :| e in xs && Unpriced(prices, e);
      assert e in xs + more;
    }
    assert Suspicious(prices, lower, xs + more);
    VerdictOfPermutation(prices, lower, xs + more, ys);
  }

  // ----- Rounding -------------------------------------------------------------------------------

  function ExactWorth(prices: Prices, e: BridgeExit): real {
    if Priced(prices, e) then
      var detail := prices[PriceID(e)];
      (ValueBE(AmountBytes(e)) * detail.dollarValue) as real / detail.multiplier as real
    else 0.0
  }

  function ExactTotal(prices: Prices, exits: seq<BridgeExit>): real {
    if |exits| == 0 then 0.0
    else ExactTotal(prices, exits[..|exits| - 1]) + ExactWorth(prices, exits[|exits| - 1])
  }

  function Dollars(prices: Prices, e: BridgeExit): nat {
    if Priced(prices, e) then prices[PriceID(e)].dollarValue else 0
  }

  function DollarSum(prices: Prices, exits: seq<BridgeExit>): nat {
    if |exits| == 0 then 0
    else DollarSum(prices, exits[..|exits| - 1]) + Dollars(prices, exits[|exits| - 1])
  }

  lemma RealQuotient(a: nat, d: nat, m: nat)
    requires m > 0
    ensures var short := (a * d) as real / m as real - (a / m * d) as real;
            0.0 <= short && (d == 0 ==> short == 0.0) && (d > 0 ==> short < d as real)
  {
    var q, r := a / m, a % m;
    assert a * d == m * (q * d) + r * d by {
      assert a == m * q + r;
    }
    assert d > 0 ==> r * d < m * d;
    var mr, x := m as real, (q * d) as real;
    assert (a * d) as real == mr * x + (r * d) as real;
    assert (a * d) as real / mr == x + (r * d) as real / mr;
    assert (m * d) as real == mr * d as real;
    assert d > 0 ==> (r * d) as real / mr < (mr * d as real) / mr;
  }

  /**
   The computed total is never above the exact value, and falls short of it by strictly less than the
   dollar values of the exits together, unless they are all zero, when it is exact.
   */
  lemma {:induction false} RoundingBound(prices: Prices, exits: seq<BridgeExit>)
    ensures var short := ExactTotal(prices, exits) - Total(prices, exits) as real;
            if DollarSum(prices, exits) > 0 then 0.0 <= short < DollarSum(prices, exits) as real else short == 0.0
  {
    if |exits| > 0 {
      var n := |exits| - 1;
      RoundingBound(prices, exits[..n]);
      assert exits == exits[..n] + [exits[n]];
      TotalSnoc(prices, exits[..n], exits[n]);
      if Priced(prices, exits[n]) {
        var detail := prices[PriceID(exits[n])];
        RealQuotient(ValueBE(AmountBytes(exits[n])), detail.dollarValue, detail.multiplier);
      }
    }
  }

  lemma QuotientOfSum(a: nat, b: nat, m: nat)
    requires m > 0
    ensures (a + b) / m - a / m - b / m in {0, 1}
  {
    var q, s := a / m + b / m, a % m + b % m;
    assert a + b == m * q + s by {
      assert m * q == m * (a / m) + m * (b / m);
    }
    if s < m {
      ModUnique(a + b, m, q, s);
    } else {
      assert m * (q + 1) == m * q + m;
      ModUnique(a + b, m, q + 1, s - m);
    }
  }

  lemma MergedWorth(prices: Prices, e: BridgeExit, f: BridgeExit, merged: BridgeExit)
    requires Counted(e) && Counted(f) && Counted(merged) && PriceID(e) == PriceID(f) == PriceID(merged)
    requires ValueBE(AmountBytes(merged)) == ValueBE(AmountBytes(e)) + ValueBE(AmountBytes(f))
    ensures Worth(prices, merged) - Worth(prices, e) - Worth(prices, f) in {0, Dollars(prices, e)}
  {
    if Priced(prices, e) {
      MergedProduct(ValueBE(AmountBytes(e)), ValueBE(AmountBytes(f)), prices[PriceID(e)].multiplier, Dollars(prices, e));
    }
  }

  /**
   Merging two exits of one token, wherever they stand in the list and wherever the merged exit is put,
   raises the total by nothing or by one dollar value.
   */
  lemma {:induction false} Merging(prices: Prices, rest: seq<BridgeExit>, e: BridgeExit, f: BridgeExit, merged: BridgeExit,
                before: seq<BridgeExit>, after: seq<BridgeExit>)
    requires Counted(e) && Counted(f) && Counted(merged) && PriceID(e) == PriceID(f) == PriceID(merged)
    requires ValueBE(AmountBytes(merged)) == ValueBE(AmountBytes(e)) + ValueBE(AmountBytes(f))
    requires multiset(before) == multiset(rest + [e, f]) && multiset(after) == multiset(rest + [merged])
    ensures Total(prices, after) - Total(prices, before) in {0, Dollars(prices, e)}
  {
    TotalOfPermutation(prices, before, rest + [e, f]);
    TotalOfPermutation(prices, after, rest + [merged]);
    TwoMore(prices, rest, e, f);
    TotalSnoc(prices, rest, merged);
    MergedWorth(prices, e, f, merged);
  }

  lemma {:induction false} TwoMore(prices: Prices, rest: seq<BridgeExit>, e: BridgeExit, f: BridgeExit)
    ensures Total(prices, rest + [e, f]) == Total(prices, rest) + Worth(prices, e) + Worth(prices, f)
  {
    assert rest + [e, f] == (rest + [e]) + [f];
    TotalSnoc(prices, rest, e);
    TotalSnoc(prices, rest + [e], f);
  }

  lemma {:induction false} TotalSnoc(prices: Prices, exits: seq<BridgeExit>, e: BridgeExit)
    ensures Total(prices, exits + [e]) == Total(prices, exits) + Worth(prices, e)
  {
    SumOfSnoc(WorthIn(prices), exits, e);
  }

  lemma MergedProduct(a: nat, b: nat, m: nat, d: nat)
    requires m > 0
    ensures (a + b) / m * d - a / m * d - b / m * d in {0, d}
  {
    QuotientOfSum(a, b, m);
    var x, y, extra := a / m, b / m, (a + b) / m - a / m - b / m;
    assert (x + y + extra) * d == x * d + y * d + extra * d;
  }
}
