/** Decimal rendering of naturals (Python `str(n)`), left padding with
    zeros (Python `str.zfill(width)`), reading a digit string back as a
    number, and Python's lexicographic order on strings. */
module Decimal {

  predicate IsDigit(c: char) { '0' <= c <= '9' }

  predicate AllDigits(s: string) { forall i :: 0 <= i < |s| ==> IsDigit(s[i]) }

  function DigitValue(c: char): (d: nat)
    requires IsDigit(c)
    ensures d < 10
  {
    c as int - '0' as int
  }

  function DigitChar(d: nat): (c: char)
    requires d < 10
    ensures IsDigit(c) && DigitValue(c) == d
  {
    ('0' as int + d) as char
  }

  function Pow10(k: nat): (p: nat)
    ensures p >= 1
  {
    if k == 0 then 1 else 10 * Pow10(k - 1)
  }

  function Max(a: int, b: int): int { if a < b then b else a }

  /** The number a digit string denotes, read left to right as Python's
      `int(s)` does (the empty string is given the value 0). */
  function Parse(s: string): nat
    requires AllDigits(s)
  {
    if s == [] then 0 else Parse(s[..|s| - 1]) * 10 + DigitValue(s[|s| - 1])
  }

  /** `str(n)` for a natural: its decimal digits, without leading zeros. */
  function Str(n: nat): (r: string)
    ensures |r| >= 1 && AllDigits(r)
    ensures r[0] != '0' || r == "0"
    ensures Parse(r) == n
  {
    if n < 10 then [DigitChar(n)]
    else
      var r := Str(n / 10) + [DigitChar(n % 10)];
      assert r[..|r| - 1] == Str(n / 10);
      r
  }

  /** `k` copies of the character `c` (Python `c * k`). */
  function Repeat(c: char, k: nat): (z: string)
    ensures |z| == k && forall i :: 0 <= i < k ==> z[i] == c
  {
    seq(k, _ => c)
  }

  /** `k` zero characters. */
  function Zeros(k: nat): string { Repeat('0', k) }

  /** `s.zfill(width)`: a string already `width` long or longer is returned
      as it is; a shorter one is padded on the left with zeros up to
      `width`, the zeros going after a leading sign character. */
  function ZFill(s: string, width: int): (r: string)
    ensures |r| == Max(|s|, width)
    ensures |s| >= width ==> r == s
    ensures |s| < width && (s == [] || (s[0] != '+' && s[0] != '-')) ==>
              r[width - |s|..] == s && forall i :: 0 <= i < width - |s| ==> r[i] == '0'
    ensures |s| < width && s != [] && (s[0] == '+' || s[0] == '-') ==>
              r[0] == s[0] && r[width - |s| + 1..] == s[1..] &&
              forall i :: 1 <= i <= width - |s| ==> r[i] == '0'
  {
    if |s| >= width then s
    else
      var fill := width - |s|;
      if s != [] && (s[0] == '+' || s[0] == '-') then [s[0]] + Zeros(fill) + s[1..]
      else Zeros(fill) + s
  }

  /** Python's `s < t` on strings: code-point lexicographic order, a proper
      prefix coming before its extensions. */
  predicate LexLess(s: string, t: string)
    ensures LexLess(s, t) ==> s != t
    ensures |s| < |t| && s == t[..|s|] ==> LexLess(s, t)
  {
    if s == [] then t != []
    else t != [] && (s[0] < t[0] || (s[0] == t[0] && LexLess(s[1..], t[1..])))
  }

  /** The string order is decided at the first position where two strings
      differ: the string with the smaller character there is the smaller. */
  lemma {:induction false} LexLessFirstDifference(s: string, t: string, k: nat)
    requires k < |s| && k < |t| && s[..k] == t[..k] && s[k] != t[k]
    ensures LexLess(s, t) <==> s[k] < t[k]
  {
    if k > 0 {
      assert s[0] == s[..k][0] && t[0] == t[..k][0];
      assert s[1..][..k - 1] == s[..k][1..] && t[1..][..k - 1] == t[..k][1..];
      LexLessFirstDifference(s[1..], t[1..], k - 1);
    }
  }

  /** The string order is trichotomous and asymmetric: of two distinct
      strings exactly one is the smaller. */
  lemma {:induction false} LexLessTrichotomy(s: string, t: string)
    ensures s == t || LexLess(s, t) || LexLess(t, s)
    ensures !(LexLess(s, t) && LexLess(t, s))
  {
    if s != [] && t != [] && s[0] == t[0] {
      LexLessTrichotomy(s[1..], t[1..]);
      assert s[1..] == t[1..] ==> s == t by {
        if s[1..] == t[1..] { assert s == [s[0]] + s[1..] && t == [t[0]] + t[1..]; }
      }
    }
  }

  /** The string order is transitive; with irreflexivity and trichotomy it
      is a strict total order, as a sort by string keys needs. */
  lemma {:induction false} LexLessTransitive(s: string, t: string, u: string)
    requires LexLess(s, t) && LexLess(t, u)
    ensures LexLess(s, u)
  {
    if s != [] && s[0] == t[0] && t[0] == u[0] {
      LexLessTransitive(s[1..], t[1..], u[1..]);
    }
  }

  /** Reading a digit string from its first digit: the leading digit weighs
      ten to the number of digits after it. */
  lemma {:induction false} ParseFirstDigit(s: string)
    requires |s| >= 1 && AllDigits(s)
    ensures Parse(s) == DigitValue(s[0]) * Pow10(|s| - 1) + Parse(s[1..])
  {
    if |s| == 1 {
      assert s[..0] == [];
      assert s[1..] == [];
    } else {
      var init, tail := s[..|s| - 1], s[1..];
      ParseFirstDigit(init);
      assert init[1..] == tail[..|tail| - 1];
      assert tail[|tail| - 1] == s[|s| - 1];
      assert Parse(tail) == Parse(init[1..]) * 10 + DigitValue(s[|s| - 1]);
      ShiftDigit(DigitValue(s[0]), Pow10(|s| - 2), Parse(init[1..]), DigitValue(s[|s| - 1]));
    }
  }

  /** Appending a digit multiplies the leading digit's weight by ten. */
  lemma ShiftDigit(d: nat, p: nat, rest: nat, last: nat)
    ensures (d * p + rest) * 10 + last == d * (10 * p) + (rest * 10 + last)
  {
  }

  /** A string of k digits denotes a number below 10^k. */
  lemma {:induction false} ParseBound(s: string)
    requires AllDigits(s)
    ensures Parse(s) < Pow10(|s|)
  {
    if s != [] {
      ParseBound(s[..|s| - 1]);
    }
  }

  /** Leading zeros do not change the value. */
  lemma {:induction false} ParseLeadingZeros(k: nat, s: string)
    requires AllDigits(s)
    ensures AllDigits(Zeros(k) + s) && Parse(Zeros(k) + s) == Parse(s)
  {
    if k > 0 {
      var z := Zeros(k) + s;
      ParseLeadingZeros(k - 1, s);
      assert z[1..] == Zeros(k - 1) + s;
      assert z[0] == '0' && DigitValue(z[0]) == 0;
      assert AllDigits(z) by {
        forall i | 0 <= i < |z| ensures IsDigit(z[i]) {
          if i > 0 { assert z[i] == z[1..][i - 1]; }
        }
      }
      ParseFirstDigit(z);
      assert Parse(z) == 0 * Pow10(|z| - 1) + Parse(z[1..]);
    } else {
      assert Zeros(k) + s == s;
    }
  }

  /** A smaller leading digit wins whatever follows it. */
  lemma LeadingDigitDominates(a: nat, b: nat, p: nat, x: nat, y: nat)
    requires a < b && x < p
    ensures a * p + x < b * p + y
  {
    assert (a + 1) * p <= b * p;
  }

  /** On digit strings of the same length, lexicographic order is the
      numeric order of the values they denote. */
  lemma {:induction false} LexLessDigits(s: string, t: string)
    requires |s| == |t| && AllDigits(s) && AllDigits(t)
    ensures LexLess(s, t) <==> Parse(s) < Parse(t)
  {
    if s != [] {
      var k := |s| - 1;
      ParseFirstDigit(s);
      ParseFirstDigit(t);
      ParseBound(s[1..]);
      ParseBound(t[1..]);
      if s[0] == t[0] {
        LexLessDigits(s[1..], t[1..]);
      } else if s[0] < t[0] {
        LeadingDigitDominates(DigitValue(s[0]), DigitValue(t[0]), Pow10(k), Parse(s[1..]), Parse(t[1..]));
      } else {
        LeadingDigitDominates(DigitValue(t[0]), DigitValue(s[0]), Pow10(k), Parse(t[1..]), Parse(s[1..]));
      }
    }
  }

  /** `str(n)` has at most k digits exactly when n < 10^k. */
  lemma {:induction false} StrLength(n: nat, k: nat)
    requires k >= 1
    ensures |Str(n)| <= k <==> n < Pow10(k)
  {
    if n >= 10 {
      if k == 1 {
        assert |Str(n)| >= 2 by { assert |Str(n / 10)| >= 1; }
      } else {
        StrLength(n / 10, k - 1);
        assert n < Pow10(k) <==> n / 10 < Pow10(k - 1);
      }
    }
  }

  /** `str(10^k)` is a one followed by k zeros. */
  lemma {:induction false} StrPowerOfTen(k: nat)
    ensures Str(Pow10(k)) == "1" + Zeros(k)
  {
    if k > 0 {
      StrPowerOfTen(k - 1);
      var p := Pow10(k);
      assert p / 10 == Pow10(k - 1) && p % 10 == 0;
      assert "1" + Zeros(k - 1) + "0" == "1" + Zeros(k);
    }
  }

  /** `str(10^k - 1)` is k nines. */
  lemma {:induction false} StrAllNines(k: nat)
    requires k >= 1
    ensures Str(Pow10(k) - 1) == Repeat('9', k)
  {
    if k == 1 {
      assert Pow10(1) - 1 == 9;
    } else {
      StrAllNines(k - 1);
      var n := Pow10(k) - 1;
      assert n == 10 * (Pow10(k - 1) - 1) + 9;
      assert n / 10 == Pow10(k - 1) - 1 && n % 10 == 9;
      assert Repeat('9', k - 1) + "9" == Repeat('9', k);
    }
  }

  /** A one followed by zeros sorts before a string of nines of the same
      number of digits or fewer, since the first characters differ. */
  lemma OneZerosBeforeNines(k: nat, m: nat)
    requires m >= 1
    ensures LexLess("1" + Zeros(k), Repeat('9', m))
  {
    var s, t := "1" + Zeros(k), Repeat('9', m);
    assert s[0] == '1' && t[0] == '9';
  }

  /** Zero-padding a digit string puts exactly the missing zeros in front. */
  lemma ZFillDigits(s: string, width: int)
    requires AllDigits(s)
    ensures ZFill(s, width) == Zeros(Max(0, width - |s|)) + s
  {
  }
}
