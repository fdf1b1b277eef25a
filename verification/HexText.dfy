/** Hexadecimal texts compared up to letter case, as token ids compare addresses. */
module HexText {
  import opened Text
  import opened Marshal

  lemma SameDigit(c: char, d: char)
    requires IsHex(c) && IsHex(d)
    ensures LowerChar(c) == LowerChar(d) <==> Nibble(c) == Nibble(d)
  {
  }

  /** Changing the letter case of a text neither makes nor breaks a hexadecimal digit. */
  lemma SameCaseSameHex(s: string, t: string)
    requires Lower(s) == Lower(t)
    ensures AllHex(s) <==> AllHex(t)
  {
    assert |s| == |t|;
    forall k | 0 <= k < |s|
      ensures IsHex(s[k]) <==> IsHex(t[k])
    {
      assert LowerChar(s[k]) == Lower(s)[k] == Lower(t)[k] == LowerChar(t[k]);
    }
  }

  lemma LowerParts(s: string)
    requires |s| > 0
    ensures Lower(s)[..|s| - 1] == Lower(s[..|s| - 1]) && Lower(s)[|s| - 1] == LowerChar(s[|s| - 1])
    ensures Lower(s) == Lower(s[..|s| - 1]) + [LowerChar(s[|s| - 1])]
  {
  }

  /** Two hexadecimal texts of one length are the same up to letter case exactly when their values are. */
  lemma {:induction false} SameDigits(s: string, t: string)
    requires AllHex(s) && AllHex(t) && |s| == |t|
    ensures Lower(s) == Lower(t) <==> HexValue(s) == HexValue(t)
  {
    if |s| > 0 {
      LowerParts(s);
      LowerParts(t);
      SameDigits(s[..|s| - 1], t[..|t| - 1]);
      SameDigit(s[|s| - 1], t[|t| - 1]);
    }
  }
}
