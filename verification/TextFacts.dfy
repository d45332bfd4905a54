/** What the words of the text modules mean, said of literal characters. */
module TextFacts {
  import opened Basics
  import opened Text
  import opened Sorting

  // Numbers, most significant digit first.

  ghost function Power(n: nat): nat {
    if n == 0 then 1 else 10 * Power(n - 1)
  }

  ghost predicate Digits(s: string) {
    forall i | 0 <= i < |s| :: '0' <= s[i] <= '9'
  }

  ghost function DigitOf(c: char): nat {
    if '0' <= c <= '9' then c as int - 48 else 0
  }

  ghost function Value(s: string): nat {
    if s == "" then 0 else DigitOf(s[0]) * Power(|s| - 1) + Value(s[1..])
  }

  lemma {:induction false} ValueLast(s: string, c: char)
    ensures Value(s + [c]) == 10 * Value(s) + DigitOf(c)
  {
    if s == "" {
      assert (s + [c])[1..] == "";
    } else {
      assert (s + [c])[1..] == s[1..] + [c];
      ValueLast(s[1..], c);
      assert Power(|s|) == 10 * Power(|s| - 1);
      TenTimes(DigitOf(s[0]), Power(|s| - 1), Value(s[1..]));
    }
  }

  lemma TenTimes(a: int, b: int, c: int)
    ensures a * (10 * b) + 10 * c == 10 * (a * b + c)
  {
  }

  lemma {:induction false} DigitsAreValued(s: string)
    requires Digits(s)
    ensures AllDigits(s) && DigitsValue(s) == Value(s)
  {
    if s != "" {
      var front, last := s[..|s| - 1], s[|s| - 1];
      assert s == front + [last];
      DigitsAreValued(front);
      ValueLast(front, last);
    }
  }

  /** Reading an unsigned number: digits, after at most one plus sign, up to the limit. */
  lemma ParseUnsignedMeans(s: string, max: nat)
    ensures s != "" && Digits(s) ==> ParseUnsigned(s, max) == if Value(s) <= max then Some(Value(s)) else None
    ensures s != "" && Digits(s) ==> ParseUnsigned("+" + s, max) == ParseUnsigned(s, max)
    ensures ParseUnsigned("", max).None? && ParseUnsigned("+", max).None?
    ensures s != "" && s[0] != '+' && !Digits(s) ==> ParseUnsigned(s, max).None?
    ensures !Digits(s) ==> ParseUnsigned("+" + s, max).None?
  {
    assert ("+" + s)[1..] == s;
    if Digits(s) {
      DigitsAreValued(s);
      if s != "" {
        assert s[0] != '+';
        DigitsAreValued(s);
      }
    } else {
      NoDigits(s);
    }
  }

  lemma NoDigits(s: string)
    requires !Digits(s)
    ensures !AllDigits(s)
  {
  }

  /** A printed number: digits only, no leading zero, and it is that number. */
  lemma {:induction false} DecimalMeans(n: nat)
    ensures Digits(Decimal(n)) && Value(Decimal(n)) == n && (n > 0 ==> Decimal(n)[0] != '0')
  {
    DecimalValue(n);
    DecimalDigits(n);
    DigitsAreValued(Decimal(n));
    if n >= 10 {
      DecimalMeans(n / 10);
    }
  }

  lemma DecimalDigits(n: nat)
    ensures Digits(Decimal(n))
  {
    var s := Decimal(n);
    forall i | 0 <= i < |s|
      ensures '0' <= s[i] <= '9'
    {
      assert IsDigit(s[i]);
    }
  }

  lemma IntTextMeans(n: int)
    ensures n >= 0 ==> Digits(IntText(n)) && Value(IntText(n)) == n
    ensures n < 0 ==> IntText(n)[0] == '-' && Digits(IntText(n)[1..]) && Value(IntText(n)[1..]) == -n
  {
    if n >= 0 {
      DecimalMeans(n);
    } else {
      DecimalMeans(-n);
      assert IntText(n)[1..] == Decimal(-n);
    }
  }

  // Characters.

  /** The characters with the Unicode property White_Space. */
  lemma WhitespaceMeans(c: char)
    ensures IsWhitespace(c) <==>
              c in {'\t', '\n', '\U{000B}', '\U{000C}', '\r', ' ', '\U{0085}', '\U{00A0}', '\U{1680}',
                    '\U{2000}', '\U{2001}', '\U{2002}', '\U{2003}', '\U{2004}', '\U{2005}', '\U{2006}', '\U{2007}',
                    '\U{2008}', '\U{2009}', '\U{200A}', '\U{2028}', '\U{2029}', '\U{202F}', '\U{205F}', '\U{3000}'}
  {
  }

  ghost const SMALL := "abcdefghijklmnopqrstuvwxyz"
  ghost const LARGE := "ABCDEFGHIJKLMNOPQRSTUVWXYZ"

  /** Lower case: the twenty-six letters, and nothing else is changed. */
  lemma LowerMeans(c: char)
    ensures forall i | 0 <= i < 26 :: LowerChar(LARGE[i]) == SMALL[i]
    ensures c !in LARGE ==> LowerChar(c) == c
  {
    assert |LARGE| == 26 && |SMALL| == 26;
    forall i | 0 <= i < 26
      ensures LARGE[i] as int == 65 + i && SMALL[i] as int == 97 + i
    {
    }
    if 'A' <= c <= 'Z' {
      var i := c as int - 65;
      assert LARGE[i] == c;
    }
  }

  /** A text differs from another at most in the case of its letters. */
  ghost predicate SameButCase(s: string, small: string) {
    && |s| == |small|
    && forall i | 0 <= i < |s| :: s[i] == small[i] || exists k | 0 <= k < 26 :: s[i] == LARGE[k] && small[i] == SMALL[k]
  }

  /** A small text is the lower case of exactly the texts that differ from it in case. */
  lemma LowerIs(s: string, small: string)
    requires forall i | 0 <= i < |small| :: small[i] !in LARGE
    ensures Lower(s) == small <==> SameButCase(s, small)
  {
    LowerMeans('a');
    forall i | 0 <= i < |s| && i < |small|
      ensures LowerChar(s[i]) == small[i] <==> (s[i] == small[i] || exists k | 0 <= k < 26 :: s[i] == LARGE[k] && small[i] == SMALL[k])
    {
      LowerMeans(s[i]);
      LowerMeans(small[i]);
      if s[i] in LARGE {
        var k :| 0 <= k < |LARGE| && LARGE[k] == s[i];
        assert |LARGE| == 26;
        assert LowerChar(s[i]) == SMALL[k];
        OneLetter(s[i]);
      }
    }
    hide LowerChar;
    if Lower(s) == small {
      forall i | 0 <= i < |s|
        ensures LowerChar(s[i]) == small[i]
      {
        assert Lower(s)[i] == LowerChar(s[i]);
      }
    }
  }

  lemma OneLetter(c: char)
    ensures forall j, k | 0 <= j < 26 && 0 <= k < 26 && LARGE[j] == c && LARGE[k] == c :: j == k
  {
    forall i | 0 <= i < 26
      ensures LARGE[i] as int == 65 + i
    {
    }
  }

  /** The text is somewhere in the line. */
  ghost predicate Holds(line: string, text: string) {
    exists a: string, b: string :: line == a + text + b
  }

  /** The text is somewhere in the line, in large letters or small. */
  ghost predicate AnyCase(line: string, small: string) {
    exists a: string, m: string, b: string :: line == a + m + b && SameButCase(m, small)
  }

  lemma HasMeans(line: string, text: string)
    ensures Has(line, text) <==> Holds(line, text)
  {
    if Has(line, text) {
      var k :| 0 <= k <= |line| - |text| && OccursAt(line, text, k);
      assert line == line[..k] + text + line[k + |text|..];
    }
    if Holds(line, text) {
      var a: string, b: string :| line == a + text + b;
      assert line[|a|..|a| + |text|] == text;
      assert OccursAt(line, text, |a|);
    }
  }

  lemma LargeLetters(small: string)
    requires forall i | 0 <= i < |small| :: small[i] < 'A' || 'Z' < small[i]
    ensures forall i | 0 <= i < |small| :: small[i] !in LARGE
  {
    forall i | 0 <= i < 26
      ensures LARGE[i] as int == 65 + i
    {
    }
  }

  lemma AnyCaseMeans(line: string, small: string)
    requires forall i | 0 <= i < |small| :: small[i] < 'A' || 'Z' < small[i]
    ensures Has(Lower(line), small) <==> AnyCase(line, small)
  {
    hide *;
    LargeLetters(small);
    if Has(Lower(line), small) {
      HasInAnyCase(line, small);
    }
    if AnyCase(line, small) {
      AnyCaseHas(line, small);
    }
  }

  lemma HasInAnyCase(line: string, small: string)
    requires (forall i | 0 <= i < |small| :: small[i] !in LARGE) && Has(Lower(line), small)
    ensures AnyCase(line, small)
  {
    hide LowerChar, SameButCase;
    var k :| 0 <= k <= |Lower(line)| - |small| && OccursAt(Lower(line), small, k);
    var m := line[k..k + |small|];
    LowerPart(line, k, k + |small|);
    LowerIs(m, small);
    assert line == line[..k] + m + line[k + |small|..];
  }

  lemma AnyCaseHas(line: string, small: string)
    requires (forall i | 0 <= i < |small| :: small[i] !in LARGE) && AnyCase(line, small)
    ensures Has(Lower(line), small)
  {
    hide LowerChar, SameButCase;
    var a: string, m: string, b: string :| line == a + m + b && SameButCase(m, small);
    LowerIs(m, small);
    LowerPart(line, |a|, |a| + |m|);
    assert line[|a|..|a| + |m|] == m;
    assert OccursAt(Lower(line), small, |a|);
  }

  lemma LowerPart(line: string, i: nat, j: nat)
    requires i <= j <= |line|
    ensures Lower(line)[i..j] == Lower(line[i..j])
  {
    hide LowerChar;
  }

  // Order.

  /** Texts are ordered by the first character that differs; the shorter of two that do not differ comes first. */
  lemma {:induction false} StringLessMeans(p: string, c: char, d: char, x: string, y: string)
    ensures StringLess(p, p + [c] + x) && !StringLess(p + [c] + x, p)
    ensures c < d ==> StringLess(p + [c] + x, p + [d] + y) && !StringLess(p + [d] + y, p + [c] + x)
  {
    var a, b := p + [c] + x, p + [d] + y;
    if p != "" {
      assert a[1..] == p[1..] + [c] + x && b[1..] == p[1..] + [d] + y;
      StringLessMeans(p[1..], c, d, x, y);
    }
  }

  // Trimming.

  ghost predicate Blank(s: string) {
    forall i | 0 <= i < |s| :: IsWhitespace(s[i])
  }

  lemma {:induction false} TrimStartMeans(s: string) returns (w: string)
    ensures Blank(w) && s == w + TrimStart(s) && (TrimStart(s) != "" ==> !IsWhitespace(TrimStart(s)[0]))
  {
    hide IsWhitespace;
    if s != "" && IsWhitespace(s[0]) {
      var rest := TrimStartMeans(s[1..]);
      w := [s[0]] + rest;
      assert s == [s[0]] + s[1..];
    } else {
      w := "";
    }
  }

  lemma {:induction false} TrimEndMeans(s: string) returns (w: string)
    ensures Blank(w) && s == TrimEnd(s) + w && (TrimEnd(s) != "" ==> !IsWhitespace(TrimEnd(s)[|TrimEnd(s)| - 1]))
  {
    hide IsWhitespace;
    if s != "" && IsWhitespace(s[|s| - 1]) {
      var rest := TrimEndMeans(s[..|s| - 1]);
      w := rest + [s[|s| - 1]];
      assert s == s[..|s| - 1] + [s[|s| - 1]];
    } else {
      w := "";
    }
  }

  /** Trimming takes white space off both ends and nothing else. */
  lemma TrimMeans(s: string) returns (a: string, b: string)
    ensures Blank(a) && Blank(b) && s == a + Trim(s) + b
    ensures Trim(s) != "" ==> !IsWhitespace(Trim(s)[0]) && !IsWhitespace(Trim(s)[|Trim(s)| - 1])
  {
    hide IsWhitespace, TrimStart, TrimEnd;
    a := TrimStartMeans(s);
    b := TrimEndMeans(TrimStart(s));
    assert Trim(s) != "" ==> Trim(s)[0] == TrimStart(s)[0];
  }
}
