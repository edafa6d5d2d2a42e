/** The straight line of dwd-core/src/generator.rs in its documented range: 63-bit rates
    at most 10^9 apart, and a duration that fits a positive i64 of nanoseconds. */
module LineProfile {
  import opened Generators
  import opened RoundRobin

  ghost predicate Documented(rps0: u64, rps1: u64, duration: nat) {
    && rps0 < I64_BOUND && rps1 < I64_BOUND
    && -GIGA <= rps1 - rps0 <= GIGA
    && 0 < duration < I64_BOUND
  }

  function Rise(rps0: u64, rps1: u64): nat { if rps1 >= rps0 then rps1 - rps0 else rps0 - rps1 }

  /** Whole requests per second gained or lost in each second: the slope loses its fraction. */
  function Rate(rps0: u64, rps1: u64, duration: nat): nat
    requires duration > 0
  {
    Rise(rps0, rps1) * GIGA / duration
  }

  /** How far the value has moved from its start after `e` nanoseconds. */
  function Climb(rps0: u64, rps1: u64, duration: nat, e: nat): nat
    requires duration > 0
  {
    Rate(rps0, rps1, duration) * e / GIGA
  }

  lemma ClimbBounded(rps0: u64, rps1: u64, duration: nat, e: nat)
    requires duration > 0 && e <= duration
    ensures Rate(rps0, rps1, duration) * e <= Rise(rps0, rps1) * GIGA
    ensures Climb(rps0, rps1, duration, e) <= Rise(rps0, rps1)
  {
    var rate := Rate(rps0, rps1, duration);
    assert rate * duration <= Rise(rps0, rps1) * GIGA;
    assert rate * e <= rate * duration;
  }

  /** Slope and value as the machine computes them: nothing leaves the i64 range, so the
      wrapping arithmetic of the code is exact. */
  lemma LineExact(rps0: u64, rps1: u64, duration: nat, now: nat, e: nat)
    requires Documented(rps0, rps1, duration) && e <= duration
    ensures LineNew(rps0, rps1, duration, now).Some?
    ensures var k := LineNew(rps0, rps1, duration, now).value.k;
            && -I64_BOUND <= (rps1 - rps0) * GIGA < I64_BOUND
            && -I64_BOUND <= k * e < I64_BOUND
            && LineValue(k, rps0, e) == if rps1 >= rps0 then rps0 + Climb(rps0, rps1, duration, e)
                                                        else rps0 - Climb(rps0, rps1, duration, e)
  {
    ClimbBounded(rps0, rps1, duration, e);
    var rate := Rate(rps0, rps1, duration);
    var k := LineNew(rps0, rps1, duration, now).value.k;
    if rps1 >= rps0 {
      assert k == rate;
    } else {
      assert k == -rate;
      assert k * e == -(rate * e);
    }
  }

  lemma ClimbMonotone(rps0: u64, rps1: u64, duration: nat, e1: nat, e2: nat)
    requires duration > 0 && e1 <= e2 <= duration
    ensures Climb(rps0, rps1, duration, 0) == 0
    ensures Climb(rps0, rps1, duration, e1) <= Climb(rps0, rps1, duration, e2)
  {
    var rate := Rate(rps0, rps1, duration);
    assert rate * e1 <= rate * e2;
    GigaDivMonotone(rate * e1, rate * e2);
  }

  lemma GigaDivMonotone(a: nat, b: nat)
    requires a <= b
    ensures a / 1_000_000_000 <= b / 1_000_000_000
  {
  }

  /** Starts at `rps0`, stays between the end points and never turns back. */
  lemma LineShape(rps0: u64, rps1: u64, duration: nat, now: nat, e1: nat, e2: nat)
    requires Documented(rps0, rps1, duration) && e1 <= e2 <= duration
    ensures LineNew(rps0, rps1, duration, now).Some?
    ensures var k := LineNew(rps0, rps1, duration, now).value.k;
            var v1, v2 := LineValue(k, rps0, e1), LineValue(k, rps0, e2);
            && LineValue(k, rps0, 0) == rps0
            && (rps0 <= rps1 ==> rps0 <= v1 <= v2 <= rps1)
            && (rps1 <= rps0 ==> rps1 <= v2 <= v1 <= rps0)
  {
    LineExact(rps0, rps1, duration, now, 0);
    LineExact(rps0, rps1, duration, now, e1);
    LineExact(rps0, rps1, duration, now, e2);
    ClimbBounded(rps0, rps1, duration, e2);
    ClimbMonotone(rps0, rps1, duration, e1, e2);
  }

  /** For whole seconds the last value misses `rps1` by the remainder of the rise over the
      seconds; it is hit exactly when that remainder is zero. */
  lemma LineEnd(rps0: u64, rps1: u64, secs: nat, now: nat)
    requires Documented(rps0, rps1, secs * GIGA)
    ensures LineNew(rps0, rps1, secs * GIGA, now).Some?
    ensures var end := LineValue(LineNew(rps0, rps1, secs * GIGA, now).value.k, rps0, secs * GIGA);
            && (if rps1 >= rps0 then rps1 - end else end - rps1) == Rise(rps0, rps1) % secs < secs
            && (end == rps1 <==> Rise(rps0, rps1) % secs == 0)
  {
    LineExact(rps0, rps1, secs * GIGA, now, secs * GIGA);
    ClimbToEnd(rps0, rps1, secs);
  }

  /** From 0 to 1 rps over two seconds: the slope is cut to zero and the line ends at 0. */
  lemma OneOverTwoSeconds(now: nat)
    ensures LineNew(0, 1, 2 * GIGA, now).Some?
    ensures LineValue(LineNew(0, 1, 2 * GIGA, now).value.k, 0, 2 * GIGA) == 0
  {
    LineEnd(0, 1, 2, now);
  }

  lemma ClimbToEnd(rps0: u64, rps1: u64, secs: nat)
    requires secs > 0
    ensures Climb(rps0, rps1, secs * GIGA, secs * GIGA) == Rise(rps0, rps1) - Rise(rps0, rps1) % secs
  {
    var rise := Rise(rps0, rps1);
    ScaledDiv(rise, secs, GIGA);
    var rate := rise / secs;
    assert rate * (secs * GIGA) == (rate * secs) * GIGA;
    DivModUnique(rate * secs * GIGA, GIGA, rate * secs, 0);
  }

  lemma ScaledDiv(a: nat, b: nat, m: nat)
    requires b > 0 && m > 0
    ensures b * m > 0 && (a * m) / (b * m) == a / b
  {
    var q, r := a / b, a % b;
    assert a * m == q * (b * m) + r * m by {
      assert a == q * b + r;
    }
    assert r * m < b * m;
    DivModUnique(a * m, b * m, q, r * m);
  }
}
