/** The configured list of delayed chains: stored as comma-separated decimal text. */
module Chains {
  import opened Wrappers
  import opened Bytes
  import opened Text

  /** The ids of the well-formed parts, in order; malformed parts are skipped. */
  function ValidIds(parts: seq<string>): seq<uint32> {
    if |parts| == 0 then []
    else
      var n := |parts| - 1;
      var id := ParseUint(TrimSpace(parts[n]), TWO_TO_THE_32);
      ValidIds(parts[..n]) + if id.Success? then [id.value] else []
  }

  function DecimalParts(chains: seq<uint32>): (parts: seq<string>)
    ensures |parts| == |chains|
  {
    seq(|chains|, k requires 0 <= k < |chains| => FormatUint(chains[k]))
  }

  function ChainText(chains: seq<uint32>): string {
    Join(DecimalParts(chains), ',')
  }

  method ParseChainIDs(chainsStr: string) returns (chains: seq<uint32>)
    ensures chains == ValidIds(Split(chainsStr, ','))
  {
    var parts := Split(chainsStr, ',');
    chains := [];
    for k := 0 to |parts|
      invariant chains == ValidIds(parts[..k])
    {
      assert parts[..k + 1][..k] == parts[..k];
      var chainID := ParseUint(TrimSpace(parts[k]), TWO_TO_THE_32);
      if chainID.Failure? {
        continue;
      }
      chains := chains + [chainID.value];
    }
    assert parts[..|parts|] == parts;
  }

  /** The part of the proxy that keeps the list; `GetConfigValue` reads a missing key as "". */
  class Service {
    var configuration: map<string, string>

    function ConfigValue(key: string): string
      reads this
    {
      if key in configuration then configuration[key] else ""
    }

    /** The list the stored text stands for. */
    function DelayedChains(): seq<uint32>
      reads this
    {
      var value := ConfigValue("delayed_chains");
      if value == "" then [] else ValidIds(Split(value, ','))
    }

    /** After a list is stored, the stored text stands for exactly that list; a failed write changes nothing. */
    method SetDelayedChains(chains: seq<uint32>, written: bool) returns (r: Result<()>)
      modifies this
      ensures r.Success? <==> written
      ensures configuration == if written then old(configuration)["delayed_chains" := ChainText(chains)] else old(configuration)
      ensures written ==> DelayedChains() == chains
    {
      var parts := new string[|chains|];
      for k := 0 to |chains|
        invariant forall j :: 0 <= j < k ==> parts[j] == FormatUint(chains[j])
        invariant configuration == old(configuration)
      {
        parts[k] := FormatUint(chains[k]);
      }
      assert parts[..] == DecimalParts(chains);
      if !written {
        return Failure;
      }
      configuration := configuration["delayed_chains" := Join(parts[..], ',')];
      ChainsRoundTrip(chains);
      EmptyText();
      r := Success(());
    }

    method GetDelayedChains(read: bool) returns (r: Result<seq<uint32>>)
      ensures r == if read then Success(DelayedChains()) else Failure
    {
      if !read {
        return Failure;
      }
      if ConfigValue("delayed_chains") == "" {
        return Success([]);
      }
      var chains := ParseChainIDs(ConfigValue("delayed_chains"));
      r := Success(chains);
    }

    method IsChainDelayed(chainID: uint32, read: bool) returns (r: Result<bool>)
      ensures r.Success? <==> read
      ensures r.Success? ==> (r.value <==> chainID in DelayedChains())
    {
      var chains := GetDelayedChains(read);
      if chains.Failure? {
        return Failure;
      }
      for k := 0 to |chains.value|
        invariant chainID !in chains.value[..k]
      {
        if chains.value[k] == chainID {
          return Success(true);
        }
      }
      return Success(false);
    }
  }

  lemma EmptyText()
    ensures ValidIds(Split("", ',')) == []
  {
    assert Split("", ',') == [""];
    assert ValidIds([""]) == ValidIds([""][..0]) + [];
  }

  lemma {:induction false} ValidPrinted(chains: seq<uint32>)
    ensures ValidIds(DecimalParts(chains)) == chains
  {
    if |chains| > 0 {
      var n := |chains| - 1;
      assert DecimalParts(chains)[..n] == DecimalParts(chains[..n]);
      ValidPrinted(chains[..n]);
      TrimPrinted(chains[n]);
      ParsePrinted(chains[n], TWO_TO_THE_32);
    }
  }

  /** Every list of 32-bit ids, the empty one included, survives printing and parsing. */
  lemma ChainsRoundTrip(chains: seq<uint32>)
    ensures ValidIds(Split(ChainText(chains), ',')) == chains
  {
    if |chains| == 0 {
      EmptyText();
    } else {
      forall k | 0 <= k < |chains|
        ensures ',' !in DecimalParts(chains)[k]
      {
        assert AllDigits(FormatUint(chains[k]));
      }
      SplitJoin(DecimalParts(chains), ',');
      ValidPrinted(chains);
    }
  }

  /** The ids with white space around them, as in "1, 137". */
  function Padded(chains: seq<uint32>, left: seq<string>, right: seq<string>): (parts: seq<string>)
    requires |left| == |right| == |chains|
    ensures |parts| == |chains|
  {
    seq(|chains|, k requires 0 <= k < |chains| => left[k] + FormatUint(chains[k]) + right[k])
  }

  lemma {:induction false} ValidPadded(chains: seq<uint32>, left: seq<string>, right: seq<string>)
    requires |left| == |right| == |chains|
    requires forall k :: 0 <= k < |chains| ==> Blank(left[k]) && Blank(right[k])
    ensures ValidIds(Padded(chains, left, right)) == chains
  {
    if |chains| > 0 {
      var n := |chains| - 1;
      assert Padded(chains, left, right)[..n] == Padded(chains[..n], left[..n], right[..n]);
      ValidPadded(chains[..n], left[..n], right[..n]);
      PaddedId(chains[n], left[n], right[n]);
    }
  }

  lemma {:induction false} PaddedId(id: uint32, left: string, right: string)
    requires Blank(left) && Blank(right)
    ensures ParseUint(TrimSpace(left + FormatUint(id) + right), TWO_TO_THE_32) == Success(id)
  {
    var s := FormatUint(id);
    assert IsDigit(s[0]) && IsDigit(s[|s| - 1]);
    TrimPadded(left, s, right);
    ParsePrinted(id, TWO_TO_THE_32);
  }

  lemma {:induction false} ValidConcat(xs: seq<string>, ys: seq<string>)
    ensures ValidIds(xs + ys) == ValidIds(xs) + ValidIds(ys)
  {
    if |ys| == 0 {
      assert xs + ys == xs;
    } else {
      var n := |ys| - 1;
      assert (xs + ys)[..|xs| + n] == xs + ys[..n];
      ValidConcat(xs, ys[..n]);
    }
  }

  /** A part that is no number is passed over; the parts around it count as if it were not there. */
  lemma {:induction false} MalformedSkipped(xs: seq<string>, part: string, ys: seq<string>)
    requires TrimSpace(part) == "" || !AllDigits(TrimSpace(part)) || DecimalValue(TrimSpace(part)) > 0xFFFF_FFFF
    ensures ValidIds(xs + [part] + ys) == ValidIds(xs + ys)
  {
    ValidConcat(xs + [part], ys);
    ValidConcat(xs, ys);
    assert (xs + [part])[..|xs|] == xs;
  }

  /** White space around the ids of a list makes no difference. */
  lemma {:induction false} SpacedList(chains: seq<uint32>, left: seq<string>, right: seq<string>)
    requires |left| == |right| == |chains| > 0
    requires forall k :: 0 <= k < |chains| ==> Blank(left[k]) && Blank(right[k])
    ensures ValidIds(Split(Join(Padded(chains, left, right), ','), ',')) == chains
  {
    forall k | 0 <= k < |chains|
      ensures ',' !in Padded(chains, left, right)[k]
    {
      assert AllDigits(FormatUint(chains[k]));
    }
    SplitJoin(Padded(chains, left, right), ',');
    ValidPadded(chains, left, right);
  }

  /** The text of the documentation's default, with a space. */
  lemma SpacedExample()
    ensures ValidIds(Split("1, 137", ',')) == [1, 137]
  {
    assert FormatUint(1) == "1" && FormatUint(13) == "13" && FormatUint(137) == "137";
    var parts := Padded([1, 137], ["", " "], ["", ""]);
    assert parts[0] == "1" && parts[1] == " 137" && parts == ["1", " 137"];
    assert parts[1..] == [" 137"];
    assert Join(parts, ',') == "1" + [','] + Join(parts[1..], ',') == "1, 137";
    SpacedList([1, 137], ["", " "], ["", ""]);
  }

  /** Any text, malformed parts included, means the same after one parse-and-print. */
  lemma {:induction false} NormalisationIsStable(text: string)
    ensures ValidIds(Split(ChainText(ValidIds(Split(text, ','))), ',')) == ValidIds(Split(text, ','))
  {
    ChainsRoundTrip(ValidIds(Split(text, ',')));
  }
}
