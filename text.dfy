/**
 * The pieces of java.lang.String and Integer.toString that the collector servlet
 * relies on when it builds URLs, cookie values and host names.
 */
module Text {

  /** `s.startsWith(prefix)`. */
  predicate StartsWith(s: string, prefix: string)
  {
    |prefix| <= |s| && s[..|prefix|] == prefix
  }

  /** `s.contains(t)`: t occurs at some position of s. */
  predicate Occurs(s: string, t: string)
    decreases |s|
  {
    StartsWith(s, t) || (s != [] && Occurs(s[1..], t))
  }

  /**
   * `s.replace(target, replacement)`: every occurrence of target, scanning left to
   * right and resuming after each replaced occurrence. An empty target puts the
   * replacement before every character and once more at the end. A string in which
   * a non-empty target does not occur is left as it is.
   */
  function Replace(s: string, target: string, replacement: string): (r: string)
    ensures target != [] && !Occurs(s, target) ==> r == s
    decreases |s|
  {
    if target == [] then
      if s == [] then replacement else replacement + [s[0]] + Replace(s[1..], target, replacement)
    else if StartsWith(s, target) then
      replacement + Replace(s[|target|..], target, replacement)
    else if s == [] then []
    else [s[0]] + Replace(s[1..], target, replacement)
  }

  /**
   * The first occurrence of a non-empty target, found after `p`, becomes the
   * replacement, and the scan resumes right after it. That the target does not
   * occur in `p` followed by all but the last character of the target says that
   * no occurrence starts inside `p`.
   */
  lemma {:induction false} ReplaceFirstOccurrence(p: string, target: string, q: string, replacement: string)
    requires target != []
    requires !Occurs(p + target[..|target| - 1], target)
    ensures Replace(p + target + q, target, replacement) == p + replacement + Replace(q, target, replacement)
    decreases |p|
  {
    var s := p + target + q;
    if p == [] {
      assert s == target + q;
      assert s[..|target|] == target;
      assert s[|target|..] == q;
    } else {
      var w := p + target[..|target| - 1];
      NoEarlyMatch(p, target, q);
      var rest := p[1..] + target + q;
      assert s == [p[0]] + rest;
      assert s[1..] == rest;
      assert w[1..] == p[1..] + target[..|target| - 1];
      ReplaceFirstOccurrence(p[1..], target, q, replacement);
      var tail := Replace(q, target, replacement);
      calc {
        Replace(s, target, replacement);
        [s[0]] + Replace(rest, target, replacement);
        [p[0]] + (p[1..] + replacement + tail);
        { assert [p[0]] + p[1..] == p; }
        p + replacement + tail;
      }
    }
  }

  /** When no occurrence starts inside a non-empty `p`, none starts at its first character. */
  lemma NoEarlyMatch(p: string, target: string, q: string)
    requires target != [] && p != []
    requires !Occurs(p + target[..|target| - 1], target)
    ensures !StartsWith(p + target + q, target)
  {
    var w := p + target[..|target| - 1];
    var s := p + target + q;
    assert |target| <= |w|;
    assert forall k :: 0 <= k < |target| ==> s[k] == w[k];
    assert s[..|target|] == w[..|target|];
  }

  /** Java's case-insensitive comparison, folding ASCII letters. */
  function LowerAscii(c: char): char
  {
    if 'A' <= c <= 'Z' then (c as int + 32) as char else c
  }

  predicate IsAsciiLetter(c: char)
  {
    'A' <= c <= 'Z' || 'a' <= c <= 'z'
  }

  /**
   * `a.equalsIgnoreCase(b)` for non-null `b`: a string equals itself; equal strings
   * have equal lengths, and characters other than ASCII letters must match exactly.
   */
  predicate EqualsIgnoreCase(a: string, b: string)
    ensures a == b ==> EqualsIgnoreCase(a, b)
    ensures EqualsIgnoreCase(a, b) ==> |a| == |b|
    ensures EqualsIgnoreCase(a, b) ==> forall i :: 0 <= i < |a| && !IsAsciiLetter(a[i]) ==> a[i] == b[i]
  {
    |a| == |b| && forall i :: 0 <= i < |a| ==> LowerAscii(a[i]) == LowerAscii(b[i])
  }

  predicate IsDigit(c: char)
  {
    '0' <= c <= '9'
  }

  function DigitValue(c: char): (d: nat)
    requires IsDigit(c)
    ensures d < 10
  {
    c as int - '0' as int
  }

  function DigitChar(d: nat): (c: char)
    requires d < 10
    ensures IsDigit(c) && DigitValue(c) == d
  {
    ('0' as int + d) as char
  }

  /** Decimal digits of a natural number, most significant first, no leading zero. */
  function NatToDecimal(n: nat): (r: string)
    ensures 1 <= |r|
    ensures forall i :: 0 <= i < |r| ==> IsDigit(r[i])
    ensures |r| > 1 ==> r[0] != '0'
  {
    if n < 10 then [DigitChar(n)] else NatToDecimal(n / 10) + [DigitChar(n % 10)]
  }

  /** `Integer.toString(i)`, which is what `String + int` appends. */
  function IntToDecimal(i: int): string
  {
    if i < 0 then "-" + NatToDecimal(-i) else NatToDecimal(i)
  }

  /** The value of a string of decimal digits. */
  function DecimalValue(s: string): nat
    requires forall i :: 0 <= i < |s| ==> IsDigit(s[i])
  {
    if s == [] then 0 else DecimalValue(s[..|s| - 1]) * 10 + DigitValue(s[|s| - 1])
  }

  /** Reading back the digits written for n gives n. */
  lemma {:induction false} DecimalRoundTrip(n: nat)
    ensures DecimalValue(NatToDecimal(n)) == n
  {
    if n >= 10 {
      var r := NatToDecimal(n);
      assert r[..|r| - 1] == NatToDecimal(n / 10);
      DecimalRoundTrip(n / 10);
    }
  }

  /** Two integers with the same decimal text are equal. */
  lemma IntToDecimalInjective(a: int, b: int)
    requires IntToDecimal(a) == IntToDecimal(b)
    ensures a == b
  {
    if a < 0 && b < 0 {
      assert NatToDecimal(-a) == IntToDecimal(a)[1..];
      DecimalRoundTrip(-a);
      DecimalRoundTrip(-b);
    } else if a >= 0 && b >= 0 {
      DecimalRoundTrip(a);
      DecimalRoundTrip(b);
    }
  }
}
