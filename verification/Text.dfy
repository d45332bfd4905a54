/** Strings as the source handles them: splitting, joining, searching, trimming and decimal numbers. */
module Text {
  import opened Basics

  /** The pieces between separators; always at least one. */
  function Split(s: string, sep: char): (r: seq<string>)
    ensures r != []
  {
    if s == "" then [""]
    else
      var rest := Split(s[1..], sep);
      if s[0] == sep then [""] + rest else [[s[0]] + rest[0]] + rest[1..]
  }

  function Join(pieces: seq<string>, sep: char): string {
    if pieces == [] then ""
    else if |pieces| == 1 then pieces[0]
    else pieces[0] + [sep] + Join(pieces[1..], sep)
  }

  ghost predicate Free(s: string, c: char) {
    c !in s
  }

  ghost predicate AllFree(pieces: seq<string>, c: char) {
    forall i | 0 <= i < |pieces| :: Free(pieces[i], c)
  }

  lemma {:induction false} SplitIsFree(s: string, sep: char)
    ensures AllFree(Split(s, sep), sep)
  {
    if s != "" {
      var rest := Split(s[1..], sep);
      SplitIsFree(s[1..], sep);
      var r := Split(s, sep);
      forall i | 0 <= i < |r|
        ensures Free(r[i], sep)
      {
        if s[0] == sep {
          assert i > 0 ==> Free(rest[i - 1], sep);
        } else {
          assert Free(rest[i], sep);
        }
      }
    }
  }

  lemma {:induction false} JoinSplit(s: string, sep: char)
    ensures Join(Split(s, sep), sep) == s
  {
    if s != "" {
      JoinSplit(s[1..], sep);
      var rest := Split(s[1..], sep);
      assert s == [s[0]] + s[1..];
      if s[0] == sep {
        assert ([""] + rest)[1..] == rest;
      } else {
        var r := [[s[0]] + rest[0]] + rest[1..];
        assert r[1..] == rest[1..];
      }
    }
  }

  lemma {:induction false} SplitFree(s: string, sep: char)
    requires Free(s, sep)
    ensures Split(s, sep) == [s]
  {
    if s != "" {
      SplitFree(s[1..], sep);
      assert [s[0]] + s[1..] == s;
    }
  }

  /** A separator splits the work in two. */
  lemma {:induction false} SplitConcat(a: string, b: string, sep: char)
    ensures Split(a + [sep] + b, sep) == Split(a, sep) + Split(b, sep)
  {
    hide Split;
    var s := a + [sep] + b;
    SplitHead(s, sep);
    if a == "" {
      assert s[1..] == b && s[0] == sep;
      SplitFree("", sep);
    } else {
      SplitHead(a, sep);
      assert s[1..] == a[1..] + [sep] + b && s[0] == a[0];
      SplitConcat(a[1..], b, sep);
      var rest, more := Split(a[1..], sep), Split(b, sep);
      assert rest != [] && (rest + more)[1..] == rest[1..] + more && (rest + more)[0] == rest[0];
      assert [""] + (rest + more) == ([""] + rest) + more;
    }
  }

  lemma SplitHead(s: string, sep: char)
    requires s != ""
    ensures var rest := Split(s[1..], sep);
            Split(s, sep) == if s[0] == sep then [""] + rest else [[s[0]] + rest[0]] + rest[1..]
  {
  }

  /** Joining loses nothing as long as there is a piece. */
  lemma {:induction false} SplitJoin(pieces: seq<string>, sep: char)
    requires pieces != [] && AllFree(pieces, sep)
    ensures Split(Join(pieces, sep), sep) == pieces
  {
    assert Free(pieces[0], sep);
    SplitFree(pieces[0], sep);
    if |pieces| > 1 {
      assert AllFree(pieces[1..], sep) by {
        forall i | 0 <= i < |pieces[1..]|
          ensures Free(pieces[1..][i], sep)
        {
          assert Free(pieces[i + 1], sep);
        }
      }
      SplitJoin(pieces[1..], sep);
      SplitConcat(pieces[0], Join(pieces[1..], sep), sep);
    }
  }

  lemma {:induction false} JoinAppend(pieces: seq<string>, last: string, sep: char)
    requires pieces != []
    ensures Join(pieces + [last], sep) == Join(pieces, sep) + [sep] + last
  {
    var r := pieces + [last];
    assert r[1..] == pieces[1..] + [last];
    if |pieces| > 1 {
      JoinAppend(pieces[1..], last, sep);
    } else {
      assert r[1..] == [last];
    }
  }

  // Searching.

  predicate StartsWith(s: string, prefix: string) {
    prefix <= s
  }

  function StripPrefix(s: string, prefix: string): Option<string> {
    if StartsWith(s, prefix) then Some(s[|prefix|..]) else None
  }

  /** `pattern` stands in `s` at position k. */
  predicate OccursAt(s: string, pattern: string, k: int) {
    0 <= k && k + |pattern| <= |s| && s[k..k + |pattern|] == pattern
  }

  /** `pattern` stands somewhere in `s`. */
  predicate Has(s: string, pattern: string) {
    exists k | 0 <= k <= |s| - |pattern| :: OccursAt(s, pattern, k)
  }

  lemma OccursTail(s: string, n: nat, pattern: string, k: nat)
    requires n <= |s|
    ensures OccursAt(s[n..], pattern, k) <==> OccursAt(s, pattern, n + k)
  {
    if n + k + |pattern| <= |s| {
      assert s[n..][k..k + |pattern|] == s[n + k..n + k + |pattern|];
    }
  }

  lemma OccursHead(s: string, n: nat, pattern: string, k: nat)
    requires k + |pattern| <= n <= |s|
    ensures OccursAt(s[..n], pattern, k) <==> OccursAt(s, pattern, k)
  {
    assert s[..n][k..k + |pattern|] == s[k..k + |pattern|];
  }

  lemma SuffixHas(s: string, n: nat, pattern: string)
    requires n <= |s| && Has(s[n..], pattern)
    ensures Has(s, pattern)
  {
    hide OccursAt;
    var k :| 0 <= k <= |s[n..]| - |pattern| && OccursAt(s[n..], pattern, k);
    OccursTail(s, n, pattern, k);
  }

  lemma PrefixHas(s: string, n: nat, pattern: string)
    requires n <= |s| && Has(s[..n], pattern)
    ensures Has(s, pattern)
  {
    hide OccursAt;
    var k :| 0 <= k <= |s[..n]| - |pattern| && OccursAt(s[..n], pattern, k);
    OccursHead(s, n, pattern, k);
  }

  /** What stands before and after the first occurrence of `pattern`. */
  function SplitOnce(s: string, pattern: string): (r: Option<(string, string)>)
    requires pattern != ""
    ensures r.Some? ==> s == r.value.0 + pattern + r.value.1
  {
    if |s| < |pattern| then None
    else if s[..|pattern|] == pattern then Some(("", s[|pattern|..]))
    else
      var r := SplitOnce(s[1..], pattern);
      if r.None? then None else Some(([s[0]] + r.value.0, r.value.1))
  }

  /** The split is at the given place when the pattern does not begin earlier. */
  lemma {:induction false} SplitOnceAt(a: string, pattern: string, b: string)
    requires pattern != "" && forall k | 0 <= k < |a| :: !OccursAt(a + pattern + b, pattern, k)
    ensures SplitOnce(a + pattern + b, pattern) == Some((a, b))
  {
    var s := a + pattern + b;
    if a == "" {
      assert s[..|pattern|] == pattern;
      assert s[|pattern|..] == b;
    } else {
      assert !OccursAt(s, pattern, 0);
      assert s[1..] == a[1..] + pattern + b;
      forall k | 0 <= k < |a[1..]|
        ensures !OccursAt(a[1..] + pattern + b, pattern, k)
      {
        assert !OccursAt(s, pattern, k + 1);
        if k + |pattern| <= |s[1..]| {
          assert s[1..][k..k + |pattern|] == s[k + 1..k + 1 + |pattern|];
        }
      }
      SplitOnceAt(a[1..], pattern, b);
      assert [a[0]] + a[1..] == a;
    }
  }

  /** SplitOnce finds an occurrence when there is one, and the first of them. */
  lemma {:induction false} SplitOnceFirst(s: string, pattern: string)
    requires pattern != ""
    ensures SplitOnce(s, pattern).None? <==> !Has(s, pattern)
    ensures SplitOnce(s, pattern).Some? ==>
              forall k | 0 <= k < |SplitOnce(s, pattern).value.0| :: !OccursAt(s, pattern, k)
  {
    hide *;
    SplitOnceUnfolds(s, pattern);
    if |s| < |pattern| {
      TooShort(s, pattern);
    } else if OccursAt(s, pattern, 0) {
      HasAt(s, pattern, 0);
    } else {
      SplitOnceFirst(s[1..], pattern);
      TailHas(s, pattern);
      forall k | 0 < k && OccursAt(s, pattern, k)
        ensures OccursAt(s[1..], pattern, k - 1)
      {
        OccursTail(s, 1, pattern, k - 1);
      }
    }
  }

  lemma HasAt(s: string, pattern: string, k: nat)
    requires OccursAt(s, pattern, k)
    ensures Has(s, pattern)
  {
  }

  lemma TooShort(s: string, pattern: string)
    requires |s| < |pattern|
    ensures !Has(s, pattern)
  {
  }

  lemma SplitOnceUnfolds(s: string, pattern: string)
    requires pattern != ""
    ensures |s| < |pattern| ==> SplitOnce(s, pattern).None?
    ensures OccursAt(s, pattern, 0) ==> SplitOnce(s, pattern).Some? && |SplitOnce(s, pattern).value.0| == 0
    ensures |s| >= |pattern| && !OccursAt(s, pattern, 0) ==>
              var r := SplitOnce(s[1..], pattern);
              && SplitOnce(s, pattern).Some? == r.Some?
              && (r.Some? ==> |SplitOnce(s, pattern).value.0| == 1 + |r.value.0|)
  {
  }

  lemma TailHas(s: string, pattern: string)
    requires |s| >= |pattern| > 0 && !OccursAt(s, pattern, 0)
    ensures Has(s, pattern) <==> Has(s[1..], pattern)
  {
    hide OccursAt;
    if Has(s, pattern) {
      var k :| 0 <= k <= |s| - |pattern| && OccursAt(s, pattern, k);
      OccursTail(s, 1, pattern, k - 1);
    }
    if Has(s[1..], pattern) {
      SuffixHas(s, 1, pattern);
    }
  }

  // Characters.

  /** Unicode White_Space. */
  predicate IsWhitespace(c: char) {
    || '\U{0009}' <= c <= '\U{000D}' || c == ' ' || c == '\U{0085}' || c == '\U{00A0}' || c == '\U{1680}'
    || '\U{2000}' <= c <= '\U{200A}' || c == '\U{2028}' || c == '\U{2029}' || c == '\U{202F}' || c == '\U{205F}' || c == '\U{3000}'
  }

  function TrimStart(s: string): string {
    if s != "" && IsWhitespace(s[0]) then TrimStart(s[1..]) else s
  }

  function TrimEnd(s: string): string {
    if s != "" && IsWhitespace(s[|s| - 1]) then TrimEnd(s[..|s| - 1]) else s
  }

  function Trim(s: string): string {
    TrimEnd(TrimStart(s))
  }

  function LowerChar(c: char): char {
    if 'A' <= c <= 'Z' then ((c as int) + 32) as char else c
  }

  function Lower(s: string): (r: string)
    ensures |r| == |s|
  {
    seq(|s|, i requires 0 <= i < |s| => LowerChar(s[i]))
  }

  // Decimal numbers.

  predicate IsDigit(c: char) {
    '0' <= c <= '9'
  }

  function DigitChar(d: nat): (c: char)
    requires d < 10
    ensures IsDigit(c) && DigitValue(c) == d
  {
    ('0' as int + d) as char
  }

  function DigitValue(c: char): nat
    requires IsDigit(c)
  {
    c as int - '0' as int
  }

  predicate AllDigits(s: string) {
    forall i | 0 <= i < |s| :: IsDigit(s[i])
  }

  function DigitsValue(s: string): nat
    requires AllDigits(s)
  {
    if s == "" then 0 else DigitsValue(s[..|s| - 1]) * 10 + DigitValue(s[|s| - 1])
  }

  function Decimal(n: nat): (s: string)
    ensures s != "" && AllDigits(s)
  {
    if n < 10 then [DigitChar(n)] else Decimal(n / 10) + [DigitChar(n % 10)]
  }

  lemma {:induction false} DecimalValue(n: nat)
    ensures DigitsValue(Decimal(n)) == n
  {
    var s := Decimal(n);
    if n < 10 {
      assert s[..0] == "";
    } else {
      assert s[..|s| - 1] == Decimal(n / 10);
      DecimalValue(n / 10);
    }
  }

  lemma DecimalInjective(m: nat, n: nat)
    requires Decimal(m) == Decimal(n)
    ensures m == n
  {
    DecimalValue(m);
    DecimalValue(n);
  }

  function IntText(n: int): string {
    if n < 0 then "-" + Decimal(-n) else Decimal(n)
  }

  lemma IntTextInjective(m: int, n: int)
    requires IntText(m) == IntText(n)
    ensures m == n
  {
    assert forall k: nat :: IsDigit(Decimal(k)[0]);
    if m < 0 && n < 0 {
      assert IntText(m)[1..] == Decimal(-m) && IntText(n)[1..] == Decimal(-n);
      DecimalInjective(-m, -n);
    } else if m >= 0 && n >= 0 {
      DecimalInjective(m, n);
    }
  }

  /** Rust's unsigned parse: an optional plus sign, then at least one digit, no overflow. */
  function ParseUnsigned(s: string, max: nat): Option<nat> {
    var digits := if StartsWith(s, "+") then s[1..] else s;
    if digits != "" && AllDigits(digits) && DigitsValue(digits) <= max then Some(DigitsValue(digits)) else None
  }

  lemma ParseDecimal(n: nat, max: nat)
    requires n <= max
    ensures ParseUnsigned(Decimal(n), max) == Some(n)
  {
    DecimalValue(n);
    assert IsDigit(Decimal(n)[0]);
  }
}
