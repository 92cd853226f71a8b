/** Cents carried by a binary float: when the conversion there and back is exact. */
module FloatCarrier {
  import opened Optional

  const EPSILON: real := 1.0 / 9007199254740992.0  // two to the power -53
  const MAX_EXACT: int := 9007199254740991

  function Magnitude(x: real): real { if x < 0.0 then -x else x }

  /** Rounds half away from zero, exactly. */
  function Round(x: real): int {
    if x >= 0.0 then (x + 0.5).Floor else -((-x + 0.5).Floor)
  }

  /** The two float operations of the conversions, of which only a relative error is known
      (section 4.3.1 of IEEE 754-2019), and the computed range limit. */
  datatype Floats = Floats(over100: int -> real, times100: real -> real, limit: real)

  ghost predicate Accurate(ops: Floats) {
    && (forall c: int :: Magnitude(ops.over100(c) - c as real / 100.0) <= EPSILON * Magnitude(c as real / 100.0))
    && (forall x: real :: Magnitude(ops.times100(x) - 100.0 * x) <= EPSILON * Magnitude(100.0 * x))
    && Magnitude(ops.limit - MAX_EXACT as real / 100.0) <= EPSILON * (MAX_EXACT as real / 100.0)
  }

  /** A float, or NaN. */
  function FromCents(ops: Floats, c: int): Option<real> {
    if c > MAX_EXACT || c < -MAX_EXACT then None else Some(ops.over100(c))
  }

  function FromFloat(ops: Floats, x: Option<real>): Option<Option<real>> {
    if x.None? || x.value > ops.limit || x.value < -ops.limit then None
    else Some(FromCents(ops, Round(ops.times100(x.value))))
  }

  function Cents(ops: Floats, amount: Option<real>): int {
    match FromFloat(ops, amount)
    case Some(Some(x)) => Round(ops.times100(x))
    case _ => 0
  }

  lemma ProductError(c: real, f: real, v: real)
    requires Magnitude(f - c / 100.0) <= EPSILON * Magnitude(c / 100.0)
    requires Magnitude(v - 100.0 * f) <= EPSILON * Magnitude(100.0 * f)
    ensures Magnitude(v - c) <= Magnitude(c) * (2.0 * EPSILON + EPSILON * EPSILON)
  {
    var g := 100.0 * f;
    var m := Magnitude(c);
    assert Magnitude(g - c) <= EPSILON * m;
    assert Magnitude(g) <= m + EPSILON * m;
    assert EPSILON * Magnitude(g) <= EPSILON * (m + EPSILON * m);
  }

  lemma RoundsBack(c: int, v: real)
    requires Magnitude(v - c as real) < 0.5
    ensures Round(v) == c
  {
  }

  lemma SmallError(c: int)
    requires -2251799813685248 < c < 2251799813685248
    ensures Magnitude(c as real) * (2.0 * EPSILON + EPSILON * EPSILON) < 0.5
  {
    var m := Magnitude(c as real);
    assert m <= 2251799813685247.0;
    assert m * (2.0 * EPSILON + EPSILON * EPSILON) <= 2251799813685247.0 * (2.0 * EPSILON + EPSILON * EPSILON);
  }

  /** Whatever the float operations do within a relative error of two to the power -53, fewer than
      two to the power 51 cents survive the trip through a float. */
  lemma FloatRoundTrip(ops: Floats, c: int)
    requires Accurate(ops) && -2251799813685248 < c < 2251799813685248
    ensures Cents(ops, FromCents(ops, c)) == c
  {
    var f := ops.over100(c);
    ProductError(c as real, f, ops.times100(f));
    SmallError(c);
    RoundsBack(c, ops.times100(f));
    assert Magnitude(f) <= Magnitude(c as real / 100.0) * (1.0 + EPSILON);
    assert Magnitude(f) <= 22517998136852.48 * (1.0 + EPSILON);
    assert ops.limit >= MAX_EXACT as real / 100.0 * (1.0 - EPSILON);
  }

  /** The bound is the best possible: at two to the power 51 operations within the same error can
      gain a cent in each of the two roundings. */
  lemma FloatBoundIsTight()
    ensures exists ops :: Accurate(ops) && Cents(ops, FromCents(ops, 2251799813685248)) == 2251799813685250
  {
    var ops := Floats((c: int) => c as real / 100.0 * (1.0 + EPSILON), (x: real) => 100.0 * x * (1.0 + EPSILON),
                      MAX_EXACT as real / 100.0);
    forall c: int ensures Magnitude(ops.over100(c) - c as real / 100.0) <= EPSILON * Magnitude(c as real / 100.0) {
      Stretched(c as real / 100.0);
    }
    forall x: real ensures Magnitude(ops.times100(x) - 100.0 * x) <= EPSILON * Magnitude(100.0 * x) {
      Stretched(100.0 * x);
    }
    assert Accurate(ops);
    var c := 2251799813685248;
    assert ops.times100(ops.over100(c)) == c as real * (1.0 + EPSILON) * (1.0 + EPSILON);
    assert Round(ops.times100(ops.over100(c))) == c + 1;
    assert ops.times100(ops.over100(c + 1)) == (c + 1) as real * (1.0 + EPSILON) * (1.0 + EPSILON);
    assert Round(ops.times100(ops.over100(c + 1))) == c + 2;
  }

  lemma Stretched(x: real)
    ensures Magnitude(x * (1.0 + EPSILON) - x) <= EPSILON * Magnitude(x)
  {
    assert x * (1.0 + EPSILON) - x == EPSILON * x;
  }
}
