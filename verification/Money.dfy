/** Money amounts held as integer cents: arithmetic with overflow guards, and decimal text. */
module Money {
  import opened Optional
  import opened Decimal
  import opened Rounding
  import opened Text

  newtype int64 = x: int | -0x8000_0000_0000_0000 <= x <= 0x7fff_ffff_ffff_ffff
  newtype uint64 = x: int | 0 <= x <= 0xffff_ffff_ffff_ffff

  const MAX_INT64: int := 0x7fff_ffff_ffff_ffff
  const MIN_INT64: int := -0x8000_0000_0000_0000
  const MAX_UINT64: int := 0xffff_ffff_ffff_ffff
  const MAX_EXACT: int64 := 0x1f_ffff_ffff_ffff

  // ---- amounts ----

  /** A float amount that stands for a number of cents, or one that is NaN or out of range. */
  datatype Amount = Exact(cents: int64) | Invalid

  predicate InRange(c: int) {
    -(MAX_EXACT as int) <= c <= MAX_EXACT as int
  }

  predicate IsValid(a: Amount) {
    a.Exact? && InRange(a.cents as int)
  }

  function FromCents(cents: int64): Amount {
    if cents > MAX_EXACT || cents < -MAX_EXACT then Invalid else Exact(cents)
  }

  /** An amount that is not valid counts as zero cents. */
  function Cents(a: Amount): int64 {
    if IsValid(a) then a.cents else 0
  }

  /** The sum is invalid exactly if it leaves the range in which cents are exact; no machine
      operation overflows on the way. */
  function Add(a: Amount, b: Amount): (r: Amount)
    ensures var sum := Cents(a) as int + Cents(b) as int;
            && (r.Invalid? <==> !InRange(sum)) && (r.Exact? ==> IsValid(r) && r.cents as int == sum)
  {
    var left, right := Cents(a), Cents(b);
    if (right > 0 && left > MAX_EXACT - right) || (right < 0 && left < -MAX_EXACT - right) then Invalid
    else FromCents(left + right)
  }

  function Sub(a: Amount, b: Amount): (r: Amount)
    ensures var difference := Cents(a) as int - Cents(b) as int;
            && (r.Invalid? <==> !InRange(difference)) && (r.Exact? ==> IsValid(r) && r.cents as int == difference)
  {
    var left, right := Cents(a), Cents(b);
    if (right < 0 && left > MAX_EXACT + right) || (right > 0 && left < -MAX_EXACT + right) then Invalid
    else FromCents(left - right)
  }

  function Negate(a: Amount): Amount {
    FromCents(-Cents(a))
  }

  lemma SubUndoesAdd(a: Amount, b: Amount)
    requires IsValid(a)
    ensures Sub(Add(a, b), b) == a <==> IsValid(Add(a, b)) || a == Negate(b)
    ensures Sub(a, b) == Add(a, Negate(b))
  {
  }

  function Sum(amounts: seq<Amount>): Amount {
    if amounts == [] then Exact(0) else Add(Sum(amounts[..|amounts| - 1]), amounts[|amounts| - 1])
  }

  function ExactSum(amounts: seq<Amount>): int {
    if amounts == [] then 0 else ExactSum(amounts[..|amounts| - 1]) + Cents(amounts[|amounts| - 1]) as int
  }

  /** A running total is exact while all its partial sums stay in range. */
  lemma {:induction false} SumIsExact(amounts: seq<Amount>)
    requires forall k :: 0 <= k <= |amounts| ==> InRange(ExactSum(amounts[..k]))
    ensures IsValid(Sum(amounts)) && Sum(amounts).cents as int == ExactSum(amounts)
  {
    if amounts != [] {
      var init := amounts[..|amounts| - 1];
      forall k | 0 <= k <= |init| ensures InRange(ExactSum(init[..k])) {
        assert init[..k] == amounts[..k];
      }
      SumIsExact(init);
      assert amounts[..|amounts|] == amounts;
    }
  }

  /** An invalid running total is forgotten: the next addition starts again from zero. */
  lemma OverflowIsForgotten(a: Amount, b: Amount, c: Amount)
    requires IsValid(c) && !InRange(Cents(a) as int + Cents(b) as int)
    ensures Add(Add(a, b), c) == c
  {
  }

  function TruncDiv(x: int64, y: int64): (q: int64)
    requires InRange(x as int) && y > 0
    ensures q as int == Sign(x as int) * (Abs(x as int) / y as int)
  {
    if x >= 0 then x / y else -((-x) / y)
  }

  function TruncRem(x: int64, y: int64): (r: int64)
    requires InRange(x as int) && y > 0
    ensures r as int == Sign(x as int) * (Abs(x as int) % y as int)
  {
    if x >= 0 then x % y else -((-x) % y)
  }

  /** Division under truncation towards zero, corrected to the nearest quotient. */
  method Divide(a: Amount, divisor: int64) returns (r: Amount)
    ensures divisor <= 0 ==> r == Exact(0)
    ensures divisor > 0 ==>
              && IsValid(r)
              && r.cents as int == Sign(Cents(a) as int) * Rounded(Abs(Cents(a) as int), divisor as int)
  {
    if divisor <= 0 {
      return Exact(0);
    }
    var cents := Cents(a);
    var quotient := TruncDiv(cents, divisor);
    var remainder := TruncRem(cents, divisor);
    ghost var m := Abs(cents as int);
    QuotientBound(m, divisor as int);
    if remainder < 0 {
      remainder := -remainder;
    }
    assert remainder as int == m % divisor as int <= m;
    if remainder * 2 >= divisor {
      TieGoesUp(m, divisor as int);
      if cents < 0 {
        quotient := quotient - 1;
      } else {
        quotient := quotient + 1;
      }
    }
    r := FromCents(quotient);
  }

  lemma QuotientBound(m: nat, d: nat)
    requires d > 0
    ensures m / d <= m && m % d <= m
    ensures Rounded(m, d) == m / d + if m % d * 2 >= d then 1 else 0
  {
    var q, rem := m / d, m % d;
    assert m == q * d + rem;
    RemainderDecides(q, rem, d);
    RoundedUnique(q + if 2 * rem >= d then 1 else 0, m, d);
  }

  lemma TieGoesUp(m: nat, d: nat)
    requires d > 0 && m % d * 2 >= d
    ensures m / d + 1 == Rounded(m, d)
  {
    QuotientBound(m, d);
  }

  // ---- printing ----

  function TwoDigits(n: nat): string
    requires n < 100
  {
    [DigitChar(n / 10), DigitChar(n % 10)]
  }

  /** `formatCents`, with the machine's conversions: the minimum has no positive counterpart. */
  function FormatCents(cents: int64): string {
    var absolute: uint64 := if cents < 0 then ((-(cents + 1)) as uint64) + 1 else cents as uint64;
    (if cents < 0 then "-" else "") + Digits((absolute / 100) as nat) + "." + TwoDigits((absolute % 100) as nat)
  }

  // ---- the syntax of decimal numbers ----

  /** The digits before and after the point. */
  datatype Literal = Literal(negative: bool, whole: string, fraction: string)

  ghost predicate LiteralOk(lit: Literal) {
    AllDigits(lit.whole) && AllDigits(lit.fraction)
  }

  /** The text without its sign: digits, and with `dotted` a point and more digits. */
  ghost predicate Writes(body: string, lit: Literal, dotted: bool) {
    && LiteralOk(lit) && (!dotted ==> lit.fraction == "")
    && body == lit.whole + if dotted then "." + lit.fraction else ""
  }

  /** `text` writes the literal: an optional sign, digits, and optionally a point with digits;
      a point alone or nothing at all is not a number. */
  ghost predicate Spells(text: string, lit: Literal) {
    exists body, dotted ::
      && Writes(body, lit, dotted) && body != "" && body != "."
      && if lit.negative then text == "-" + body else text == body || text == "+" + body
  }

  /** The value in cents, rounded half away from zero. */
  ghost function ExactCents(lit: Literal): int
    requires LiteralOk(lit)
  {
    (if lit.negative then -1 else 1) * Rounded(100 * Number(lit.whole + lit.fraction), Pow10(|lit.fraction|))
  }

  lemma NoPoint(digits: string)
    requires AllDigits(digits)
    ensures '.' !in digits
  {
    forall i | 0 <= i < |digits| ensures digits[i] != '.' {
      assert IsDigit(digits[i]);
    }
  }

  /** What the split makes of the digits of a literal. */
  lemma SplitOfBody(body: string, lit: Literal, dotted: bool)
    requires Writes(body, lit, dotted)
    ensures Split(body, '.') == if dotted then [lit.whole, lit.fraction] else [lit.whole]
  {
    NoPoint(lit.whole);
    NoPoint(lit.fraction);
    var parts := if dotted then [lit.whole, lit.fraction] else [lit.whole];
    SplitOfJoin(parts, '.');
    assert Join(parts, '.') == body by {
      assert dotted ==> parts[1..] == [lit.fraction];
    }
  }

  lemma JoinOfSplit(s: string)
    ensures |Split(s, '.')| == 1 ==> Split(s, '.')[0] == s
    ensures |Split(s, '.')| == 2 ==> s == Split(s, '.')[0] + "." + Split(s, '.')[1]
  {
    SplitParts(s, '.');
    var parts := Split(s, '.');
    assert |parts| == 2 ==> parts[1..] == [parts[1]];
  }

  function ReadBody(negative: bool, body: string): Option<Literal> {
    var parts := Split(body, '.');
    if |parts| > 2 || !AllDigits(parts[0]) || !AllDigits(parts[|parts| - 1]) then None
    else Some(Literal(negative, parts[0], if |parts| == 2 then parts[1] else ""))
  }

  function Read(text: string): Option<Literal> {
    var negative := text != "" && text[0] == '-';
    var body := if text != "" && text[0] in {'-', '+'} then text[1..] else text;
    if body == "" || body == "." then None else ReadBody(negative, body)
  }

  lemma ReadBodyWrites(negative: bool, body: string)
    requires ReadBody(negative, body).Some?
    ensures var lit := ReadBody(negative, body).value;
            lit.negative == negative && Writes(body, lit, |Split(body, '.')| == 2)
  {
    JoinOfSplit(body);
  }

  lemma BodyStartsPlain(body: string, lit: Literal, dotted: bool)
    requires Writes(body, lit, dotted) && body != ""
    ensures body[0] != '-' && body[0] != '+'
  {
    if lit.whole != "" {
      assert body[0] == lit.whole[0] && IsDigit(lit.whole[0]);
    }
  }

  /** Reading finds exactly the literal the text writes, so a text writes at most one. */
  lemma ReadIffSpells(text: string, lit: Literal)
    ensures Read(text) == Some(lit) <==> Spells(text, lit)
  {
    if body, dotted :| Writes(body, lit, dotted) && body != "" && body != "."
                       && if lit.negative then text == "-" + body else text == body || text == "+" + body {
      BodyStartsPlain(body, lit, dotted);
      SplitOfBody(body, lit, dotted);
      assert text[0] == '-' || text[0] == '+' ==> text[1..] == body;
    }
    if Read(text) == Some(lit) {
      var body := if text[0] in {'-', '+'} then text[1..] else text;
      ReadBodyWrites(lit.negative, body);
      assert text[0] in {'-', '+'} ==> text == [text[0]] + body;
      assert Writes(body, lit, |Split(body, '.')| == 2);
    }
  }

  // ---- the value of a literal ----

  /** The first two decimals, padded with zeros. */
  function FirstTwo(f: string): string {
    if |f| >= 2 then f[..2] else if |f| == 1 then f + "0" else "00"
  }

  function FractionCents(f: string): nat
    requires AllDigits(f)
  {
    Number(FirstTwo(f)) + if |f| > 2 && f[2] >= '5' then 1 else 0
  }

  /** The third decimal decides the rounding of all the decimals after the second. */
  lemma CarryIsHalfUp(g: string)
    requires AllDigits(g)
    ensures HalfUp(if g != [] && g[0] >= '5' then 1 else 0, Number(g), Pow10(|g|))
  {
    NumberBound(g);
    if g != [] {
      var head, tail := g[..1], g[1..];
      assert head + tail == g;
      NumberConcat(head, tail);
      NumberBound(tail);
      assert Number(head) == DigitValue(g[0]) by { assert head[..0] == []; }
      LeadingDigitDecides(DigitValue(g[0]), Number(tail), Pow10(|tail|), Number(g), Pow10(|g|));
    }
  }

  lemma TwoDigitNumber(s: string)
    requires |s| == 2 && AllDigits(s)
    ensures Number(s) == 10 * DigitValue(s[0]) + DigitValue(s[1]) < 100
  {
    assert s[..1][..0] == [];
    assert Number(s[..1]) == DigitValue(s[0]);
  }

  /** Two decimals `a`, and `k` more that round to `carry`. */
  lemma LongFraction(a: nat, k: nat, g: nat, carry: nat, n: nat)
    requires n == a * Pow10(k) + g && HalfUp(carry, g, Pow10(k))
    ensures HalfUp(a + carry, 100 * n, Pow10(k + 2))
  {
    assert Pow10(k + 2) == 10 * Pow10(k + 1);
    HundredTimes(a, Pow10(k), g);
    ScaledHalfUp(carry, g, Pow10(k), a, 100, 100 * n, Pow10(k + 2));
  }

  lemma HundredTimes(a: nat, p: nat, g: nat)
    ensures 100 * (a * p + g) == a * (100 * p) + 100 * g
  {
  }

  lemma ShortFraction(f: string)
    requires AllDigits(f) && |f| < 2
    ensures FractionCents(f) * Pow10(|f|) == 100 * Number(f)
  {
    TwoDigitNumber(FirstTwo(f));
    assert |f| == 1 ==> f[..0] == [];
    assert Pow10(1) == 10;
  }

  function Carry(f: string): nat
    requires |f| >= 2
  {
    if |f| > 2 && f[2] >= '5' then 1 else 0
  }

  lemma FractionSplit(f: string)
    requires AllDigits(f) && |f| >= 2
    ensures Number(f) == Number(f[..2]) * Pow10(|f| - 2) + Number(f[2..])
    ensures HalfUp(Carry(f), Number(f[2..]), Pow10(|f| - 2))
  {
    assert f[..2] + f[2..] == f;
    NumberConcat(f[..2], f[2..]);
    CarryIsHalfUp(f[2..]);
  }

  lemma LongFractionIsHalfUp(f: string, k: nat, r: nat)
    requires AllDigits(f) && |f| == k + 2 && r == Number(f[..2]) + Carry(f)
    ensures HalfUp(r, 100 * Number(f), Pow10(k + 2))
  {
    FractionSplit(f);
    LongFraction(Number(f[..2]), k, Number(f[2..]), Carry(f), Number(f));
  }

  lemma FractionIsHalfUp(f: string)
    requires AllDigits(f)
    ensures HalfUp(FractionCents(f), 100 * Number(f), Pow10(|f|))
  {
    if |f| < 2 {
      ShortFraction(f);
    } else {
      LongFractionIsHalfUp(f, |f| - 2, FractionCents(f));
    }
  }

  /** Whole cents and the rounded decimals are the rounded value of the whole literal. */
  lemma LiteralCents(w: string, f: string)
    requires AllDigits(w) && AllDigits(f)
    ensures AllDigits(w + f)
    ensures Rounded(100 * Number(w + f), Pow10(|f|)) == 100 * Number(w) + FractionCents(f)
  {
    NumberConcat(w, f);
    FractionIsHalfUp(f);
    ScaledUp(Number(w), Number(f), Pow10(|f|), FractionCents(f));
    RoundedUnique(100 * Number(w) + FractionCents(f), 100 * Number(w + f), Pow10(|f|));
  }

  lemma ScaledUp(w: nat, f: nat, d: nat, cents: nat)
    requires HalfUp(cents, 100 * f, d)
    ensures HalfUp(100 * w + cents, 100 * (w * d + f), d)
  {
    assert 100 * w * d == 100 * (w * d);
    ScaledHalfUp(cents, 100 * f, d, 100 * w, 1, 100 * (w * d + f), d);
  }

  // ---- parsing ----

  method IsDigits(value: string) returns (digits: bool)
    ensures digits == AllDigits(value)
  {
    for i := 0 to |value|
      invariant AllDigits(value[..i])
    {
      if value[i] < '0' || value[i] > '9' {
        assert !IsDigit(value[i]);
        return false;
      }
    }
    digits := true;
  }

  /** `strconv.ParseUint` in base 10 with 64 bits. */
  function ParseUint(s: string): Option<uint64>
    requires AllDigits(s)
  {
    if Number(s) <= MAX_UINT64 then Some(Number(s) as uint64) else None
  }

  /** The cents of the digits after the point: two decimals, and one more cent on a third
      decimal of at least five. */
  method ParseFraction(fractionalPart: string) returns (fractionalCents: uint64)
    requires AllDigits(fractionalPart)
    ensures fractionalCents as int == FractionCents(fractionalPart) <= 100
  {
    var firstTwoDigits := fractionalPart;
    if |firstTwoDigits| > 2 {
      firstTwoDigits := firstTwoDigits[..2];
    }
    ghost var start := firstTwoDigits;
    while |firstTwoDigits| < 2
      invariant |start| <= |firstTwoDigits| <= 2 && AllDigits(firstTwoDigits)
      invariant FirstTwo(firstTwoDigits) == FirstTwo(start)
    {
      firstTwoDigits := firstTwoDigits + "0";
    }
    assert firstTwoDigits[..2] == firstTwoDigits == FirstTwo(fractionalPart);
    TwoDigitNumber(firstTwoDigits);
    fractionalCents := ParseUint(firstTwoDigits).value;
    if |fractionalPart| > 2 && fractionalPart[2] >= '5' {
      fractionalCents := fractionalCents + 1;
    }
  }

  /** Puts sign, whole units and up to 100 fractional cents together, if 64 bits can hold them. */
  method Combine(negative: bool, whole0: uint64, fractionalCents0: uint64) returns (r: Option<int64>)
    requires fractionalCents0 <= 100
    ensures var exact := (if negative then -1 else 1) * (100 * whole0 as int + fractionalCents0 as int);
            if MIN_INT64 <= exact <= MAX_INT64 then r == Some(exact as int64) else r == None
  {
    var whole, fractionalCents := whole0, fractionalCents0;
    if fractionalCents == 100 {
      if whole as int == MAX_UINT64 {
        return None;
      }
      whole, fractionalCents := whole + 1, 0;
    }
    var limit: uint64 := MAX_INT64 as uint64;
    if negative {
      limit := limit + 1;
    }
    if whole > limit / 100 || (whole == limit / 100 && fractionalCents > limit % 100) {
      return None;
    }
    var absolute: uint64 := whole * 100 + fractionalCents;
    if !negative {
      return Some(absolute as int64);
    }
    if absolute as int == MAX_INT64 + 1 {
      return Some(MIN_INT64 as int64);
    }
    r := Some(-(absolute as int64));
  }

  /** The result for a trimmed text that reads as `lit`: the cents if 64 bits can hold them. */
  ghost predicate ResultFor(r: Option<int64>, lit: Option<Literal>)
    requires lit.Some? ==> LiteralOk(lit.value)
  {
    if lit.None? then r == None
    else
      var exact := ExactCents(lit.value);
      if MIN_INT64 <= exact <= MAX_INT64 then r == Some(exact as int64) else r == None
  }

  lemma CombineParts(negative: bool, w: string, f: string)
    requires AllDigits(w) && AllDigits(f)
    ensures LiteralOk(Literal(negative, w, f))
    ensures ExactCents(Literal(negative, w, f)) == (if negative then -1 else 1) * (100 * Number(w) + FractionCents(f))
  {
    LiteralCents(w, f);
  }

  /** The text after the sign. */
  method ParseBody(negative: bool, body: string) returns (r: Option<int64>)
    ensures ResultFor(r, ReadBody(negative, body))
  {
    var parts := Split(body, '.');
    if |parts| > 2 {
      return None;
    }
    var wholePart := parts[0];
    if wholePart == "" {
      wholePart := "0";
    }
    var digits := IsDigits(wholePart);
    if !digits {
      return None;
    }
    assert AllDigits(parts[0]) && Number(wholePart) == Number(parts[0]) by {
      assert "0"[..0] == [];
    }
    var whole := ParseUint(wholePart);
    var fractionalPart := "";
    if |parts| == 2 {
      fractionalPart := parts[1];
      digits := IsDigits(fractionalPart);
      if !digits {
        return None;
      }
    }
    CombineParts(negative, parts[0], fractionalPart);
    if whole.None? {
      return None;
    }
    var fractionalCents := ParseFraction(fractionalPart);
    r := Combine(negative, whole.value, fractionalCents);
  }

  /** `CentsFromDecimalString`: for a text that writes a number after trimming, 100 times that
      number rounded half away from zero, and an error exactly if this leaves the 64-bit range;
      an error for every other text. */
  method CentsFromDecimalString(value: string) returns (r: Option<int64>)
    ensures ResultFor(r, Read(TrimSpace(value)))
  {
    var text := TrimSpace(value);
    if text == "" {
      return None;
    }
    var negative := false;
    if text[0] == '-' {
      negative, text := true, text[1..];
    } else if text[0] == '+' {
      text := text[1..];
    }
    if text == "" || text == "." {
      return None;
    }
    r := ParseBody(negative, text);
  }

  // ---- printing and parsing ----

  ghost function Magnitude(cents: int64): nat { Abs(cents as int) }

  lemma FormattedText(cents: int64)
    ensures var m := Magnitude(cents);
            && FormatCents(cents) == (if cents < 0 then "-" else "") + (Digits(m / 100) + "." + TwoDigits(m % 100))
  {
    var m := Magnitude(cents);
    var body := Digits(m / 100) + "." + TwoDigits(m % 100);
    assert "-" + Digits(m / 100) + "." + TwoDigits(m % 100) == "-" + body;
    assert "" + Digits(m / 100) + "." + TwoDigits(m % 100) == "" + body;
  }

  lemma SolidEnds(first: string, digits: string, last: string)
    requires first == "" || first == "-"
    requires AllDigits(digits) && AllDigits(last) && digits != "" && last != ""
    ensures TrimSpace(first + (digits + "." + last)) == first + (digits + "." + last)
  {
    var text := first + (digits + "." + last);
    assert text[0] == '-' || text[0] == digits[0];
    assert text[|text| - 1] == last[|last| - 1];
    assert IsDigit(digits[0]) && IsDigit(last[|last| - 1]);
    SolidEndsStay(text);
  }

  /** An amount is printed as a minus sign if it is negative, the whole units without leading zeros, a point
      and exactly two digits. */
  lemma FormattedShape(cents: int64)
    ensures var text := FormatCents(cents); var m := Abs(cents as int); var n := |text|;
            && n >= 4 && text[n - 3] == '.' && (text[0] == '-' <==> cents < 0)
            && text[n - 2] as int - '0' as int == m % 100 / 10 && text[n - 1] as int - '0' as int == m % 10
            && text[if cents < 0 then 1 else 0..n - 3] == Digits(m / 100)
            && AllDigits(Digits(m / 100)) && Number(Digits(m / 100)) == m / 100
            && (m >= 1000 ==> Digits(m / 100)[0] != '0')
  {
    var m := Abs(cents as int);
    FormattedText(cents);
    NumberOfDigits(m / 100);
    var whole, tail := Digits(m / 100), TwoDigits(m % 100);
    assert |tail| == 2;
    assert IsDigit(whole[0]);
    assert m >= 1000 ==> |whole| > 1;
  }

  lemma FormattedIsTrimmed(cents: int64)
    ensures TrimSpace(FormatCents(cents)) == FormatCents(cents)
  {
    FormattedText(cents);
    SolidEnds(if cents < 0 then "-" else "", Digits(Magnitude(cents) / 100), TwoDigits(Magnitude(cents) % 100));
  }

  ghost function Printed(cents: int64): Literal {
    Literal(cents < 0, Digits(Magnitude(cents) / 100), TwoDigits(Magnitude(cents) % 100))
  }

  lemma PrintSpells(cents: int64)
    ensures Spells(FormatCents(cents), Printed(cents))
  {
    FormattedText(cents);
    var lit := Printed(cents);
    var body := lit.whole + "." + lit.fraction;
    assert lit.whole + ("." + lit.fraction) == body;
    assert Writes(body, lit, true);
    assert body[|lit.whole|] == '.' && |body| > 1;
    assert "" + body == body;
  }

  lemma PrintedValue(cents: int64)
    ensures LiteralOk(Printed(cents)) && ExactCents(Printed(cents)) == cents as int
  {
    var m := Magnitude(cents);
    var w, f := Digits(m / 100), TwoDigits(m % 100);
    CombineParts(cents < 0, w, f);
    NumberOfDigits(m / 100);
    TwoDigitNumber(f);
    assert f[..2] == f;
  }

  /** Printing any 64-bit number of cents, the minimum included, and parsing it gives it back. */
  lemma PrintParse(cents: int64)
    ensures ResultFor(Some(cents), Read(TrimSpace(FormatCents(cents))))
  {
    FormattedIsTrimmed(cents);
    PrintSpells(cents);
    ReadIffSpells(FormatCents(cents), Printed(cents));
    PrintedValue(cents);
  }

  /** Printed amounts are never confused. */
  lemma FormatInjective(a: int64, b: int64)
    requires FormatCents(a) == FormatCents(b)
    ensures a == b
  {
    PrintParse(a);
    PrintParse(b);
  }
}
