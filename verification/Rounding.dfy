/** Rounding half away from zero. */
module Rounding {

  function Abs(x: int): nat { if x < 0 then -x else x }

  function Sign(x: int): int { if x < 0 then -1 else 1 }

  /** `r` is the integer nearest to `num / den`, the larger one on a tie. */
  ghost predicate HalfUp(r: int, num: int, den: int) {
    2 * (r * den) - den <= 2 * num < 2 * (r * den) + den
  }

  /** The nearest integer to `num / den` for a magnitude `num`. */
  function Rounded(num: nat, den: nat): (r: nat)
    requires den > 0
  {
    (2 * num + den) / (2 * den)
  }

  lemma RoundedIsHalfUp(num: nat, den: nat)
    requires den > 0
    ensures HalfUp(Rounded(num, den), num, den)
  {
    var x, y := 2 * num + den, 2 * den;
    assert x == y * (x / y) + x % y;
  }

  lemma Apart(a: int, b: int, den: nat)
    requires a < b
    ensures a * den + den <= b * den
  {
    var c := b - a - 1;
    assert b == (a + 1) + c;
    assert b * den == (a + 1) * den + c * den;
  }

  lemma HalfUpUnique(r: int, s: int, num: int, den: nat)
    requires den > 0 && HalfUp(r, num, den) && HalfUp(s, num, den)
    ensures r == s
  {
    if r < s {
      Apart(r, s, den);
    } else if s < r {
      Apart(s, r, den);
    }
  }

  lemma RoundedUnique(r: nat, num: nat, den: nat)
    requires den > 0 && HalfUp(r, num, den)
    ensures r == Rounded(num, den)
  {
    RoundedIsHalfUp(num, den);
    HalfUpUnique(r, Rounded(num, den), num, den);
  }

  /** No integer is closer to `num / den`, and one equally close is smaller. */
  lemma RoundedIsNearest(num: nat, den: nat, k: int)
    requires den > 0
    ensures var r := Rounded(num, den);
            && Abs(num - r * den) <= Abs(num - k * den)
            && (Abs(num - r * den) == Abs(num - k * den) ==> k <= r)
  {
    RoundedIsHalfUp(num, den);
    var r := Rounded(num, den);
    if k > r {
      Apart(r, k, den);
    } else if k < r {
      Apart(k, r, den);
    }
  }

  lemma TimesMonotone(a: int, b: int, p: nat)
    requires a <= b
    ensures a * p <= b * p
  {
    if a < b {
      Apart(a, b, p);
    }
  }

  /** Division with remainder, corrected by one when the remainder is at least half. */
  lemma RemainderDecides(q: nat, rem: nat, d: nat)
    requires rem < d
    ensures HalfUp(q + if 2 * rem >= d then 1 else 0, q * d + rem, d)
    ensures q * d >= q
  {
    assert (q + 1) * d == q * d + d;
    TimesMonotone(1, d, q);
    assert d * q == q * d;
  }

  /** The first of the digits `h` and those of `t` decides how their fraction is rounded. */
  lemma LeadingDigitDecides(h: nat, t: nat, p: nat, num: nat, den: nat)
    requires h <= 9 && t < p && num == h * p + t && den == 10 * p
    ensures HalfUp(if h >= 5 then 1 else 0, num, den)
  {
    if h >= 5 {
      TimesMonotone(5, h, p);
      TimesMonotone(h, 9, p);
    } else {
      TimesMonotone(h, 4, p);
    }
  }

  /** Adding a whole number `q`, and writing the fraction with a denominator `k` times as large. */
  lemma ScaledHalfUp(r: int, num: int, den: int, q: int, k: nat, num': int, den': int)
    requires HalfUp(r, num, den) && k > 0
    requires den' == k * den && num' == q * den' + k * num
    ensures HalfUp(q + r, num', den')
  {
    assert (q + r) * den' == q * den' + r * den';
    assert r * den' == k * (r * den);
    TimesMonotone(2 * (r * den) - den, 2 * num, k);
    Apart(2 * num, 2 * (r * den) + den, k);
    assert (2 * (r * den) - den) * k == 2 * (k * (r * den)) - den';
    assert (2 * (r * den) + den) * k == 2 * (k * (r * den)) + den';
    assert 2 * num * k == 2 * (k * num);
  }
}
