/** The text operations the reconciler decides with: Go's `strings.Contains`,
    the line tokens of a `bufio.Scanner`, and `strconv.Itoa`. */
module Strings {

  /** `sub` occurs in `s` starting at index `i`. */
  predicate OccursAt(s: string, sub: string, i: nat) {
    i + |sub| <= |s| && s[i..i + |sub|] == sub
  }

  /** Go's `strings.Contains(s, sub)`; the empty string occurs in every string. */
  predicate Contains(s: string, sub: string) {
    exists i | 0 <= i <= |s| :: OccursAt(s, sub, i)
  }

  lemma ContainsEmpty(s: string)
    ensures Contains(s, "")
  {
    assert OccursAt(s, "", 0);
  }

  /** What occurs in a slice of `s` occurs in `s`. */
  lemma ContainsInSlice(s: string, lo: nat, hi: nat, sub: string)
    requires lo <= hi <= |s| && Contains(s[lo..hi], sub)
    ensures Contains(s, sub)
  {
    var i :| 0 <= i <= hi - lo && OccursAt(s[lo..hi], sub, i);
    forall j | 0 <= j < |sub|
      ensures s[lo + i + j] == sub[j]
    {
      assert s[lo..hi][i..i + |sub|][j] == sub[j];
    }
    assert s[lo + i..lo + i + |sub|] == sub;
    assert OccursAt(s, sub, lo + i);
  }

  /** Index of the first newline of `s`, or `|s|` when there is none. */
  function NewlineIndex(s: string): (k: nat)
    ensures k <= |s|
    ensures k < |s| ==> s[k] == '\n'
    ensures forall j :: 0 <= j < k ==> s[j] != '\n'
  {
    if s == [] || s[0] == '\n' then 0 else 1 + NewlineIndex(s[1..])
  }

  /** The tokens a `bufio.Scanner` with its default line splitter yields:
      the text between newlines, where a final newline does not start an
      extra empty line and empty input yields no line at all. */
  function Lines(s: string): (ls: seq<string>)
    ensures (s == []) == (ls == [])
    ensures forall i :: 0 <= i < |ls| ==> '\n' !in ls[i]
    decreases |s|
  {
    if s == [] then []
    else
      var k := NewlineIndex(s);
      if k == |s| then [s]
      else
        assert '\n' !in s[..k];
        [s[..k]] + Lines(s[k + 1..])
  }

  /** Some line of `s` contains `sub`. */
  predicate SomeLineContains(s: string, sub: string) {
    exists i | 0 <= i < |Lines(s)| :: Contains(Lines(s)[i], sub)
  }

  /** A line that contains `sub` puts `sub` in the whole text. */
  lemma {:induction false} SomeLineContainsInText(s: string, sub: string)
    requires SomeLineContains(s, sub)
    ensures s != [] && Contains(s, sub)
  {
    var i :| 0 <= i < |Lines(s)| && Contains(Lines(s)[i], sub);
    LinesAreInText(s);
    var j :| 0 <= j <= |s| && OccursAt(s, Lines(s)[i], j);
    assert s[j..j + |Lines(s)[i]|] == Lines(s)[i];
    ContainsInSlice(s, j, j + |Lines(s)[i]|, sub);
  }

  /** The first line of non-empty text is the text up to its first newline. */
  lemma SomeLineContainsFirst(s: string, sub: string)
    requires s != [] && Contains(s[..NewlineIndex(s)], sub)
    ensures SomeLineContains(s, sub)
  {
    assert Lines(s)[0] == s[..NewlineIndex(s)];
  }

  /** The lines after the first newline are lines of the whole text. */
  lemma SomeLineContainsRest(s: string, sub: string)
    requires NewlineIndex(s) < |s| && SomeLineContains(s[NewlineIndex(s) + 1..], sub)
    ensures SomeLineContains(s, sub)
  {
    var rest := s[NewlineIndex(s) + 1..];
    var j :| 0 <= j < |Lines(rest)| && Contains(Lines(rest)[j], sub);
    assert Lines(s)[j + 1] == Lines(rest)[j];
  }

  /** An occurrence of a newline-free `sub` in non-empty text lies within one line. */
  lemma {:induction false} TextContainsInSomeLine(s: string, sub: string)
    requires '\n' !in sub && s != [] && Contains(s, sub)
    ensures SomeLineContains(s, sub)
    decreases |s|
  {
    var k := NewlineIndex(s);
    var i :| 0 <= i <= |s| && OccursAt(s, sub, i);
    if sub == [] {
      ContainsEmpty(s[..k]);
      SomeLineContainsFirst(s, sub);
    } else if i + |sub| <= k {
      assert s[..k][i..i + |sub|] == s[i..i + |sub|];
      assert OccursAt(s[..k], sub, i);
      SomeLineContainsFirst(s, sub);
    } else {
      OccurrenceAfterNewline(s, sub, k, i);
      TextContainsInSomeLine(s[k + 1..], sub);
      SomeLineContainsRest(s, sub);
    }
  }

  /** A non-empty, newline-free occurrence that ends after a newline lies
      entirely after it. */
  lemma OccurrenceAfterNewline(s: string, sub: string, k: nat, i: nat)
    requires k < |s| && s[k] == '\n' && '\n' !in sub && sub != []
    requires OccursAt(s, sub, i) && k < i + |sub|
    ensures k + 1 <= i && OccursAt(s[k + 1..], sub, i - k - 1)
  {
    if i <= k {
      assert false;
    }
    assert s[k + 1..][i - k - 1..i - k - 1 + |sub|] == s[i..i + |sub|];
  }

  /** For a search string without a newline, looking for it line by line
      finds exactly what a search over the whole text finds, except that
      empty text has no line to search in. */
  lemma SomeLineContainsIff(s: string, sub: string)
    requires '\n' !in sub
    ensures SomeLineContains(s, sub) <==> s != [] && Contains(s, sub)
  {
    if SomeLineContains(s, sub) {
      SomeLineContainsInText(s, sub);
    }
    if s != [] && Contains(s, sub) {
      TextContainsInSomeLine(s, sub);
    }
  }

  /** Every line is a piece of the text it was split from. */
  lemma {:induction false} LinesAreInText(s: string)
    ensures forall i :: 0 <= i < |Lines(s)| ==> Contains(s, Lines(s)[i])
    decreases |s|
  {
    if s == [] {
      return;
    }
    var k := NewlineIndex(s);
    if k == |s| {
      assert OccursAt(s, s, 0);
      return;
    }
    var rest := s[k + 1..];
    assert Lines(s) == [s[..k]] + Lines(rest);
    LinesAreInText(rest);
    forall i | 0 <= i < |Lines(s)|
      ensures Contains(s, Lines(s)[i])
    {
      if i == 0 {
        assert OccursAt(s, s[..k], 0);
      } else {
        assert Contains(rest, Lines(rest)[i - 1]);
        assert rest == s[k + 1..|s|];
        ContainsInSlice(s, k + 1, |s|, Lines(rest)[i - 1]);
      }
    }
  }

  // ---------------------------------------------------------------------
  // strconv.Itoa

  function DigitChar(d: nat): char
    requires d < 10
  {
    (48 + d) as char
  }

  function DigitValue(c: char): int {
    c as int - 48
  }

  /** The decimal digits of `n`, most significant first, without leading zeros. */
  function NatToDecimal(n: nat): (s: string)
    ensures |s| >= 1
    ensures forall i :: 0 <= i < |s| ==> '0' <= s[i] <= '9'
    ensures n >= 10 ==> s[0] != '0'
  {
    if n < 10 then [DigitChar(n)] else NatToDecimal(n / 10) + [DigitChar(n % 10)]
  }

  /** Go's `strconv.Itoa`: decimal digits, with a leading '-' for negative numbers. */
  function Itoa(n: int): string {
    if n < 0 then "-" + NatToDecimal(-n) else NatToDecimal(n)
  }

  /** The value of a string of decimal digits (the reference decoder for `Itoa`). */
  function DecimalValue(s: string): int {
    if s == [] then 0 else DecimalValue(s[..|s| - 1]) * 10 + DigitValue(s[|s| - 1])
  }

  /** The value of an optionally signed decimal string. */
  function SignedDecimalValue(s: string): int {
    if |s| > 0 && s[0] == '-' then -DecimalValue(s[1..]) else DecimalValue(s)
  }

  lemma {:induction false} DecimalRoundTrip(n: nat)
    ensures DecimalValue(NatToDecimal(n)) == n
    decreases n
  {
    if n >= 10 {
      var s := NatToDecimal(n);
      assert s[..|s| - 1] == NatToDecimal(n / 10);
      DecimalRoundTrip(n / 10);
    }
  }

  /** `Itoa` loses nothing: the number can be read back from its text. */
  lemma ItoaRoundTrip(n: int)
    ensures SignedDecimalValue(Itoa(n)) == n
  {
    if n < 0 {
      var digits := NatToDecimal(-n);
      assert Itoa(n) == "-" + digits;
      assert ("-" + digits)[1..] == digits;
      DecimalRoundTrip(-n);
    } else {
      var digits := NatToDecimal(n);
      assert digits[0] != '-';
      DecimalRoundTrip(n);
    }
  }

  lemma ItoaInjective(a: int, b: int)
    requires Itoa(a) == Itoa(b)
    ensures a == b
  {
    ItoaRoundTrip(a);
    ItoaRoundTrip(b);
  }
}
