/** The fraction of a second in timestamps (app/canonical.py, `parse_time` and `canon_time`). */
module Timestamps {

  predicate AllDigits(s: string) {
    forall i :: 0 <= i < |s| ==> '0' <= s[i] <= '9'
  }

  function Zeros(n: nat): (s: string)
    ensures |s| == n && forall i :: 0 <= i < n ==> s[i] == '0'
  {
    seq(n, _ => '0')
  }

  function Power10(n: nat): (p: nat)
    ensures p > 0
  {
    if n == 0 then 1 else 10 * Power10(n - 1)
  }

  /** Python's `int` on digits. */
  function Number(s: string): nat
    requires AllDigits(s)
  {
    if s == "" then 0 else 10 * Number(s[..|s| - 1]) + (s[|s| - 1] - '0') as nat
  }

  /** The microseconds of the digits after the point: the first six, filled up with zeros. */
  function Micros(digits: string): nat
    requires AllDigits(digits)
  {
    Number((digits + Zeros(6))[..6])
  }

  function Fixed(m: nat, width: nat): (s: string)
    ensures |s| == width && AllDigits(s)
  {
    if width == 0 then "" else Fixed(m / 10, width - 1) + ['0' + (m % 10) as char]
  }

  /** `rstrip("0")`. */
  function Trimmed(s: string): (t: string)
    ensures |t| <= |s| && s == t + Zeros(|s| - |t|)
    ensures t == "" || t[|t| - 1] != '0'
  {
    if s == "" || s[|s| - 1] != '0' then s else Trimmed(s[..|s| - 1])
  }

  /** The fraction as `canon_time` prints it, with its point, or nothing. */
  function CanonFraction(m: nat): string {
    if m == 0 then "" else "." + Trimmed(Fixed(m, 6))
  }

  /** The fraction as `parse_time` reads it; the pattern requires a digit after a point. */
  function ParseFraction(s: string): nat
    requires s == "" || AllDigits(s[1..])
  {
    if s == "" then 0 else Micros(s[1..])
  }

  lemma {:induction false} FixedNumber(m: nat, width: nat)
    requires m < Power10(width)
    ensures Number(Fixed(m, width)) == m
  {
    if width > 0 {
      FixedNumber(m / 10, width - 1);
      assert Fixed(m, width)[..width - 1] == Fixed(m / 10, width - 1);
    }
  }

  /** What is printed reads back: for every number of microseconds in a second. */
  lemma FractionRoundTrip(m: nat)
    requires m < 1_000_000
    ensures AllDigits(if CanonFraction(m) == "" then "" else CanonFraction(m)[1..])
    ensures ParseFraction(CanonFraction(m)) == m
  {
    if m > 0 {
      var s := Fixed(m, 6);
      var t := Trimmed(s);
      assert CanonFraction(m)[1..] == t;
      assert AllDigits(t) by {
        assert forall i :: 0 <= i < |t| ==> t[i] == s[i];
      }
      assert (t + Zeros(6))[..6] == s;
      assert Power10(6) == 1_000_000;
      FixedNumber(m, 6);
    }
  }

  // ----- What is kept of a fraction --------------------------------------------------------------

  lemma OneMoreDigit(n: nat, p: nat, r: nat, d: nat)
    ensures 10 * (n * p + r) + d == n * (10 * p) + (10 * r + d)
  {
  }

  lemma NumberSnoc(s: string)
    requires AllDigits(s) && s != ""
    ensures Number(s) == 10 * Number(s[..|s| - 1]) + (s[|s| - 1] - '0') as nat
  {
  }

  lemma {:induction false} NumberConcat(a: string, b: string)
    requires AllDigits(a) && AllDigits(b)
    ensures AllDigits(a + b) && Number(a + b) == Number(a) * Power10(|b|) + Number(b)
  {
    if b == "" {
      assert a + b == a;
    } else {
      var front, d := b[..|b| - 1], (b[|b| - 1] - '0') as nat;
      var n, p, r := Number(a), Power10(|b| - 1), Number(front);
      NumberConcat(a, front);
      assert (a + b)[..|a + b| - 1] == a + front && (a + b)[|a + b| - 1] == b[|b| - 1];
      NumberSnoc(a + b);
      NumberSnoc(b);
      calc {
        Number(a + b);
        10 * (n * p + r) + d;
        { OneMoreDigit(n, p, r, d); }
        n * (10 * p) + (10 * r + d);
        n * Power10(|b|) + Number(b);
      }
    }
  }

  lemma {:induction false} NumberZero(s: string)
    requires AllDigits(s)
    ensures Number(s) == 0 <==> s == Zeros(|s|)
  {
    if s != "" {
      NumberZero(s[..|s| - 1]);
      assert s == s[..|s| - 1] + [s[|s| - 1]];
      assert Zeros(|s|) == Zeros(|s| - 1) + ['0'];
    }
  }

  lemma {:induction false} PowerSum(a: nat, b: nat)
    ensures Power10(a + b) == Power10(a) * Power10(b)
  {
    if b > 0 {
      PowerSum(a, b - 1);
      assert Power10(a) * Power10(b) == 10 * (Power10(a) * Power10(b - 1));
    }
  }

  /** The fraction 0.digits is as many millionths as are kept of it. */
  ghost predicate Exact(digits: string)
    requires AllDigits(digits)
  {
    Micros(digits) * Power10(|digits|) == Number(digits) * Power10(6)
  }

  /** A fraction is preserved exactly when its digits beyond the sixth are zeros; others are cut off. */
  lemma FractionsAreCutOff(digits: string)
    requires AllDigits(digits)
    ensures Exact(digits) <==> |digits| <= 6 || digits[6..] == Zeros(|digits| - 6)
  {
    if |digits| <= 6 {
      var fill := Zeros(6 - |digits|);
      assert (digits + Zeros(6))[..6] == digits + fill;
      NumberConcat(digits, fill);
      NumberZero(fill);
      PowerSum(6 - |digits|, |digits|);
      Scale(Number(digits), Power10(6 - |digits|), Power10(|digits|), 0);
    } else {
      var kept, rest := digits[..6], digits[6..];
      assert (digits + Zeros(6))[..6] == kept && digits == kept + rest;
      NumberConcat(kept, rest);
      NumberZero(rest);
      PowerSum(6, |rest|);
      Scale(Number(kept), Power10(|rest|), Power10(6), Number(rest));
    }
  }

  lemma Scale(v: nat, p: nat, q: nat, rest: nat)
    requires p > 0 && q > 0
    ensures v * (p * q) == (v * p) * q
    ensures v * (q * p) == (v * p + rest) * q <==> rest == 0
  {
    assert (v * p + rest) * q == (v * p) * q + rest * q;
    assert rest * q == 0 <==> rest == 0;
    assert v * (q * p) == (v * p) * q;
  }
}
