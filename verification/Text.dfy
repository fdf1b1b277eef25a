/** The string functions the configuration formats are built from. */
module Text {
  import opened Wrappers

  predicate IsDigit(c: char) {
    '0' <= c <= '9'
  }

  predicate AllDigits(s: string) {
    forall k :: 0 <= k < |s| ==> IsDigit(s[k])
  }

  function FormatUint(n: nat): (s: string)
    ensures s != "" && AllDigits(s)
  {
    var last := ['0' + (n % 10) as char];
    if n < 10 then last else FormatUint(n / 10) + last
  }

  function DecimalValue(s: string): nat
    requires AllDigits(s)
  {
    if s == "" then 0 else 10 * DecimalValue(s[..|s| - 1]) + (s[|s| - 1] - '0') as nat
  }

  /** `strconv.ParseUint(s, 10, bits)` with `limit` = 2^bits: digits only, at least one, in range. */
  function ParseUint(s: string, limit: nat): (r: Result<nat>)
    ensures r.Success? ==> r.value < limit
  {
    if s != "" && AllDigits(s) && DecimalValue(s) < limit then Success(DecimalValue(s)) else Failure
  }

  /** `strings.Split` with a one-character separator: the empty string has one, empty, part. */
  function Split(s: string, sep: char): (parts: seq<string>)
    ensures |parts| >= 1
  {
    if s == "" then [""]
    else
      var rest := Split(s[1..], sep);
      if s[0] == sep then [""] + rest else [[s[0]] + rest[0]] + rest[1..]
  }

  function Join(parts: seq<string>, sep: char): string {
    if |parts| == 0 then ""
    else if |parts| == 1 then parts[0]
    else parts[0] + [sep] + Join(parts[1..], sep)
  }

  /** The characters `unicode.IsSpace` accepts. */
  predicate IsSpace(c: char) {
    || '\t' <= c <= '\r' || c == ' '
    || c in {0x85 as char, 0xA0 as char, 0x1680 as char, 0x2028 as char, 0x2029 as char,
             0x202f as char, 0x205f as char, 0x3000 as char}
    || 0x2000 as char <= c <= 0x200a as char
  }

  function TrimSpace(s: string): string {
    if s == "" then s
    else if IsSpace(s[0]) then TrimSpace(s[1..])
    else if IsSpace(s[|s| - 1]) then TrimSpace(s[..|s| - 1])
    else s
  }

  function LowerChar(c: char): char {
    if 'A' <= c <= 'Z' then c + 32 as char else c
  }

  /** `strings.ToLower` on ASCII text. */
  function Lower(s: string): (r: string)
    ensures |r| == |s|
  {
    seq(|s|, k requires 0 <= k < |s| => LowerChar(s[k]))
  }

  lemma LowerIdempotent(s: string)
    ensures Lower(Lower(s)) == Lower(s)
  {
  }

  lemma {:induction false} ParseFormat(n: nat)
    ensures DecimalValue(FormatUint(n)) == n
  {
    if n >= 10 {
      ParseFormat(n / 10);
      assert FormatUint(n)[..|FormatUint(n)| - 1] == FormatUint(n / 10);
    }
  }

  /** Printing a number in range and parsing it gives it back; printing is injective. */
  lemma {:induction false} ParsePrinted(n: nat, limit: nat)
    ensures ParseUint(FormatUint(n), limit) == if n < limit then Success(n) else Failure
  {
    ParseFormat(n);
  }

  lemma {:induction false} TrimPrinted(n: nat)
    ensures TrimSpace(FormatUint(n)) == FormatUint(n)
  {
    var s := FormatUint(n);
    assert IsDigit(s[0]) && IsDigit(s[|s| - 1]);
  }

  /** White space as it may stand around a number. */
  predicate Blank(s: string) {
    forall k :: 0 <= k < |s| ==> s[k] in {' ', '\t', '\n', '\r'}
  }

  lemma {:induction false} TrimPadded(l: string, s: string, r: string)
    requires Blank(l) && Blank(r) && s != "" && !IsSpace(s[0]) && !IsSpace(s[|s| - 1])
    ensures TrimSpace(l + s + r) == s
    decreases |l| + |r|
  {
    var t := l + s + r;
    if l != "" {
      assert t[0] == l[0] && t[1..] == l[1..] + s + r;
      TrimPadded(l[1..], s, r);
    } else if r != "" {
      assert t[0] == s[0] && t[|t| - 1] == r[|r| - 1] && t[..|t| - 1] == l + s + r[..|r| - 1];
      TrimPadded(l, s, r[..|r| - 1]);
    } else {
      assert t == s;
    }
  }

  lemma {:induction false} SplitFirst(p: string, rest: string, sep: char)
    requires sep !in p
    ensures Split(p + [sep] + rest, sep) == [p] + Split(rest, sep)
  {
    var s := p + [sep] + rest;
    if p == "" {
      assert s[1..] == rest;
    } else {
      assert s[1..] == p[1..] + [sep] + rest;
      SplitFirst(p[1..], rest, sep);
      assert [s[0]] + p[1..] == p;
    }
  }

  lemma {:induction false} SplitSingle(p: string, sep: char)
    requires sep !in p
    ensures Split(p, sep) == [p]
  {
    if p != "" {
      SplitSingle(p[1..], sep);
      assert [p[0]] + p[1..] == p;
    }
  }

  /** Splitting undoes joining when no part holds the separator. */
  lemma {:induction false} SplitJoin(parts: seq<string>, sep: char)
    requires |parts| >= 1
    requires forall k :: 0 <= k < |parts| ==> sep !in parts[k]
    ensures Split(Join(parts, sep), sep) == parts
  {
    if |parts| == 1 {
      SplitSingle(parts[0], sep);
    } else {
      SplitFirst(parts[0], Join(parts[1..], sep), sep);
      SplitJoin(parts[1..], sep);
    }
  }
}
