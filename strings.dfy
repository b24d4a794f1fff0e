/**
 * The JavaScript string operations the core relies on, written out:
 * `indexOf`, `split`, `slice(0, end)`, `replace` with a string pattern
 * (first occurrence only), `startsWith`, and the decimal rendering that
 * `JSON.stringify` uses for a non-negative integer.
 */
module Strings {
  import opened Wrappers

  /** `s.indexOf(c)` for a one-character pattern: the first index of `c`, or -1. */
  function IndexOf(s: string, c: char): (k: int)
    ensures -1 <= k < |s|
    ensures k == -1 <==> c !in s
    ensures 0 <= k ==> s[k] == c && c !in s[..k]
  {
    if |s| == 0 then -1
    else if s[0] == c then 0
    else
      var k := IndexOf(s[1..], c);
      assert s[1..][..if k < 0 then 0 else k] == s[1..if k < 0 then 1 else k + 1];
      if k < 0 then -1 else k + 1
  }

  /** The last index of `c` in `s[..n]`, or -1. */
  function LastIndexBelow(s: string, c: char, n: nat): (k: int)
    requires n <= |s|
    ensures -1 <= k < n
    ensures k == -1 ==> forall j :: 0 <= j < n ==> s[j] != c
    ensures 0 <= k ==> s[k] == c && forall j :: k < j < n ==> s[j] != c
  {
    if n == 0 then -1
    else if s[n - 1] == c then n - 1
    else LastIndexBelow(s, c, n - 1)
  }

  /** `s.lastIndexOf(c)`: the last index of `c`, or -1. */
  function LastIndexOf(s: string, c: char): (k: int)
    ensures -1 <= k < |s|
    ensures k == -1 <==> c !in s
    ensures 0 <= k ==> s[k] == c && forall j :: k < j < |s| ==> s[j] != c
  {
    LastIndexBelow(s, c, |s|)
  }

  /** `pat` occurs in `s` starting at index `k`. */
  predicate OccursAt(s: string, pat: string, k: int) {
    0 <= k && k + |pat| <= |s| && s[k..k + |pat|] == pat
  }

  /** `s.indexOf(pat)` searching from index `from` on. */
  function IndexOfFrom(s: string, pat: string, from: nat): (k: int)
    ensures k == -1 || (from <= k && OccursAt(s, pat, k))
    ensures k == -1 ==> forall j :: from <= j && OccursAt(s, pat, j) ==> false
    ensures k != -1 ==> forall j :: from <= j < k ==> !OccursAt(s, pat, j)
    decreases |s| - from
  {
    if from + |pat| > |s| then -1
    else if s[from..from + |pat|] == pat then from
    else IndexOfFrom(s, pat, from + 1)
  }

  /** `s.indexOf(pat)`: the first index where `pat` occurs, or -1. */
  function IndexOfString(s: string, pat: string): (k: int)
    ensures k == -1 <==> forall j :: !OccursAt(s, pat, j)
    ensures k != -1 ==> OccursAt(s, pat, k) && forall j :: 0 <= j < k ==> !OccursAt(s, pat, j)
  {
    IndexOfFrom(s, pat, 0)
  }

  /** An occurrence with none before it is the one `indexOf` finds. */
  lemma IndexOfStringAt(s: string, pat: string, k: nat)
    requires OccursAt(s, pat, k)
    requires forall j :: 0 <= j < k ==> !OccursAt(s, pat, j)
    ensures IndexOfString(s, pat) == k
  {
  }

  /** `parts.join(c)`. */
  function Join(parts: seq<string>, c: char): string {
    if |parts| == 0 then ""
    else if |parts| == 1 then parts[0]
    else parts[0] + [c] + Join(parts[1..], c)
  }

  /**
   * `s.split(c)` for a one-character separator: the pieces between the
   * separators, empty pieces included, so that joining them back gives `s`.
   */
  function Split(s: string, c: char): (parts: seq<string>)
    ensures |parts| >= 1
    ensures forall i :: 0 <= i < |parts| ==> c !in parts[i]
    ensures Join(parts, c) == s
    ensures |parts| >= 2 <==> c in s
    decreases |s|
  {
    var k := IndexOf(s, c);
    if k < 0 then [s]
    else
      var rest := Split(s[k + 1..], c);
      var parts := [s[..k]] + rest;
      assert parts[1..] == rest;
      assert Join(parts, c) == s[..k] + [c] + s[k + 1..];
      assert s == s[..k] + [c] + s[k + 1..];
      assert forall i :: 1 <= i < |parts| ==> parts[i] == rest[i - 1];
      parts
  }

  /** The text of `s` before the first `c` (all of `s` when there is none). */
  function BeforeFirst(s: string, c: char): (r: string)
    ensures c !in r
    ensures r <= s
    ensures |r| == |s| || s[|r|] == c
  {
    var k := IndexOf(s, c);
    if k < 0 then s else s[..k]
  }

  /** `s` is its text before the first `c` followed by the rest. */
  lemma BeforeFirstThenRest(s: string, c: char)
    ensures s == BeforeFirst(s, c) + s[|BeforeFirst(s, c)|..]
  {
    var head := BeforeFirst(s, c);
    assert head == s[..|head|];
  }

  /** The first piece of a split is the text before the first separator. */
  lemma SplitHead(s: string, c: char)
    ensures Split(s, c)[0] == BeforeFirst(s, c)
  {
  }

  /**
   * When `s` holds a separator, the second piece of `s.split(c)` is the text
   * between the first separator and the next one (or the end of `s`).
   */
  lemma SplitSecond(s: string, c: char)
    requires c in s
    ensures |Split(s, c)| >= 2
    ensures var k := IndexOf(s, c); Split(s, c)[1] == BeforeFirst(s[k + 1..], c)
  {
    var k := IndexOf(s, c);
    SplitHead(s[k + 1..], c);
  }

  /** Where the text before the first `c` of the suffix `s[start..]` lies in `s`. */
  lemma BeforeFirstAt(s: string, start: nat, c: char)
    requires start <= |s|
    ensures var w := BeforeFirst(s[start..], c); var end := start + |w|;
      && end <= |s| && s[start..end] == w && (end == |s| || s[end] == c)
  {
    var tail := s[start..];
    var w := BeforeFirst(tail, c);
    assert tail[..|w|] == w;
    assert s[start..start + |w|] == tail[..|w|];
    assert start + |w| < |s| ==> s[start + |w|] == tail[|w|];
  }

  /**
   * `s.slice(0, end)`: a negative `end` counts from the end of the string,
   * and the cut is clamped to the string.
   */
  function SliceTo(s: string, end: int): (r: string)
    ensures r <= s
    ensures end >= 0 ==> |r| == if end < |s| then end else |s|
    ensures end < 0 ==> |r| == if |s| + end > 0 then |s| + end else 0
  {
    var cut := if end < 0 then |s| + end else end;
    if cut <= 0 then "" else if cut >= |s| then s else s[..cut]
  }

  /** `s.replace(a, b)` with one-character string patterns: only the first `a` is replaced. */
  function ReplaceFirst(s: string, a: char, b: char): (r: string)
    ensures |r| == |s|
    ensures a !in s ==> r == s
    ensures a in s ==> var k := IndexOf(s, a);
      r[k] == b && r[..k] == s[..k] && r[k + 1..] == s[k + 1..]
  {
    var k := IndexOf(s, a);
    if k < 0 then s else s[..k] + [b] + s[k + 1..]
  }

  /** `s.startsWith(p)`. */
  function StartsWith(s: string, p: string): (b: bool)
    ensures b <==> |p| <= |s| && s[..|p|] == p
  {
    p <= s
  }

  predicate IsDigit(ch: char) {
    '0' <= ch <= '9'
  }

  function DigitChar(d: nat): (ch: char)
    requires d < 10
    ensures IsDigit(ch)
  {
    "0123456789"[d]
  }

  function DigitValue(ch: char): (d: nat)
    requires IsDigit(ch)
    ensures d < 10
  {
    (ch as int - '0' as int) as nat
  }

  lemma DigitValueOfChar(d: nat)
    requires d < 10
    ensures DigitValue(DigitChar(d)) == d
  {
  }

  /** The decimal rendering of `n`, as `String(n)` and `JSON.stringify` give it. */
  function Decimal(n: nat): (s: string)
    ensures |s| >= 1
    ensures forall i :: 0 <= i < |s| ==> IsDigit(s[i])
    ensures s[0] == '0' ==> n == 0 && |s| == 1
  {
    if n < 10 then [DigitChar(n)] else Decimal(n / 10) + [DigitChar(n % 10)]
  }

  /** The value of a string of decimal digits. */
  function DigitsValue(s: string): nat
    requires forall i :: 0 <= i < |s| ==> IsDigit(s[i])
  {
    if |s| == 0 then 0 else DigitsValue(s[..|s| - 1]) * 10 + DigitValue(s[|s| - 1])
  }

  /** A JSON number literal for a non-negative integer: digits, no leading zero. */
  function ParseNat(s: string): (r: Option<nat>)
    ensures r.Some? ==> Decimal(r.value) == s
  {
    if |s| >= 1 && (forall i :: 0 <= i < |s| ==> IsDigit(s[i])) && (s[0] != '0' || |s| == 1) then
      DecimalOfDigits(s);
      Some(DigitsValue(s))
    else None
  }

  lemma {:induction false} DigitsValueOfDecimal(n: nat)
    ensures DigitsValue(Decimal(n)) == n
  {
    if n < 10 {
      DigitValueOfChar(n);
    } else {
      var s := Decimal(n);
      assert s[..|s| - 1] == Decimal(n / 10);
      DigitsValueOfDecimal(n / 10);
      DigitValueOfChar(n % 10);
    }
  }

  lemma {:induction false} DecimalOfDigits(s: string)
    requires |s| >= 1 && forall i :: 0 <= i < |s| ==> IsDigit(s[i])
    requires s[0] != '0' || |s| == 1
    ensures Decimal(DigitsValue(s)) == s
  {
    var init, last := s[..|s| - 1], s[|s| - 1];
    assert s == init + [last];
    if |s| == 1 {
      assert DigitsValue(s) == DigitValue(last);
      assert DigitChar(DigitValue(last)) == last;
    } else {
      assert init[0] == s[0];
      DecimalOfDigits(init);
      PositiveDigits(init);
      var v := DigitsValue(init);
      assert DigitsValue(s) == v * 10 + DigitValue(last);
      assert (v * 10 + DigitValue(last)) / 10 == v;
      assert (v * 10 + DigitValue(last)) % 10 == DigitValue(last);
      assert DigitChar(DigitValue(last)) == last;
    }
  }

  lemma PositiveDigits(s: string)
    requires |s| >= 1 && forall i :: 0 <= i < |s| ==> IsDigit(s[i])
    requires s[0] != '0'
    ensures DigitsValue(s) >= 1
  {
    if |s| > 1 {
      assert s[..|s| - 1][0] == s[0];
      PositiveDigits(s[..|s| - 1]);
    }
  }

  /** Parsing the decimal rendering of `n` gives `n` back. */
  lemma {:induction false} ParseNatOfDecimal(n: nat)
    ensures ParseNat(Decimal(n)) == Some(n)
  {
    DigitsValueOfDecimal(n);
  }
}
