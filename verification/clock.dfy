/** Splitting a count of seconds into hours, minutes and seconds the way the
    front end does: `Math.floor` of a division and JavaScript's `%`, whose
    remainder takes the sign of the dividend. */
module Clock {
  /** JavaScript's `a % b` on integers for a positive divisor. */
  function JsRem(a: int, b: int): (r: int)
    requires b > 0
    ensures a >= 0 ==> r == a % b
    ensures -b < r < b
  {
    if a >= 0 then a % b else -((-a) % b)
  }

  /** JavaScript's `a % b` on numbers for a positive divisor:
      `a - b * trunc(a / b)`. */
  function JsRemReal(a: real, b: real): real
    requires b > 0.0
  {
    a - b * Trunc(a / b) as real
  }

  /** Rounding toward zero. */
  function Trunc(x: real): int {
    if x >= 0.0 then x.Floor else -((-x).Floor)
  }

  datatype Hms = Hms(h: int, m: int, s: int)

  /** Hours, minutes and seconds of a whole number of seconds:
      `⌊e / 3600⌋`, `⌊(e % 3600) / 60⌋` and `e % 60`. */
  function Split(e: int): Hms {
    Hms(e / 3600, JsRem(e, 3600) / 60, JsRem(e, 60))
  }

  /** For a non-negative count the split is the usual one: minutes and
      seconds below 60, and the three parts add back up to the count. */
  lemma SplitAddsUp(e: int)
    requires e >= 0
    ensures var t := Split(e);
      && 0 <= t.h && 0 <= t.m < 60 && 0 <= t.s < 60
      && t.h * 3600 + t.m * 60 + t.s == e
  {
    var h, r := e / 3600, e % 3600;
    assert e == h * 3600 + r;
    var m := r / 60;
    assert r == m * 60 + r % 60;
    assert e == (h * 60 + m) * 60 + r % 60;
    assert e % 60 == r % 60;
  }

  /** `⌊x / d⌋` equals the integer division of `⌊x⌋` by `d` for `x >= 0`
      and the two divisors the front end uses. */
  lemma FloorDivReal(x: real, d: nat)
    requires x >= 0.0 && (d == 60 || d == 3600)
    ensures (x / d as real).Floor == x.Floor / d
  {
    var f := x.Floor;
    if d == 60 {
      var q := f / 60;
      assert f == q * 60 + f % 60;
      assert q as real <= x / 60.0 < q as real + 1.0;
    } else {
      var q := f / 3600;
      assert f == q * 3600 + f % 3600;
      assert q as real <= x / 3600.0 < q as real + 1.0;
    }
  }

  /** Taking away a whole number keeps the fractional part. */
  lemma FloorShift(x: real, k: int)
    ensures (x - k as real).Floor == x.Floor - k
  {
  }

  /** The split `formatElapsed` makes of a non-negative number of seconds,
      with `Math.floor` applied to each part, is the split of its whole
      seconds. */
  lemma RealSplit(t: real)
    requires t >= 0.0
    ensures (t / 3600.0).Floor == Split(t.Floor).h
    ensures (JsRemReal(t, 3600.0) / 60.0).Floor == Split(t.Floor).m
    ensures JsRemReal(t, 60.0).Floor == Split(t.Floor).s
  {
    var f := t.Floor;
    FloorDivReal(t, 3600);
    var q := (t / 3600.0).Floor;
    assert Trunc(t / 3600.0) == q;
    var x := JsRemReal(t, 3600.0);
    assert x == t - (3600 * q) as real;
    FloorShift(t, 3600 * q);
    assert x.Floor == f % 3600;
    FloorDivReal(x, 60);
    FloorDivReal(t, 60);
    var q60 := (t / 60.0).Floor;
    assert Trunc(t / 60.0) == q60;
    assert JsRemReal(t, 60.0) == t - (60 * q60) as real;
    FloorShift(t, 60 * q60);
  }
}
