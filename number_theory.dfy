/**
 * gcd and lcm of src/math.ts, and the copies gcm/lcm kept privately by src/evaluate.ts.
 * Numbers are mathematical integers: the doubles of the source are exact for every
 * operand the rational path produces.
 */
module NumberTheory {
  import opened Results

  function Abs(x: int): nat {
    if x < 0 then -x else x
  }

  /** d divides x: x is an integer multiple of d (so 0 divides only 0). */
  ghost predicate Divides(d: int, x: int) {
    exists k :: d * k == x
  }

  /**
   * The value gcd's loop returns once both operands are non-negative, one loop
   * iteration per call: stop when b is 0 or a equals b, swap when a < b,
   * otherwise continue with (b, a % b).
   */
  function Euclid(a: nat, b: nat): nat
    decreases b
  {
    if b == 0 then a
    else if a == b then a
    else if a < b then Euclid(b, a)
    else Euclid(b, a % b)
  }

  /** gcd(a, b): Euclid's loop on the absolute values. */
  function Gcd(a: int, b: int): nat {
    Euclid(Abs(a), Abs(b))
  }

  /** gcd as src/math.ts runs it: Math.abs on both operands, then the for(;;) loop. */
  method GcdLoop(a: int, b: int) returns (r: int)
    ensures r == Gcd(a, b)
    ensures r >= 0 && Divides(r, a) && Divides(r, b)
  {
    var x, y := Abs(a), Abs(b);
    while true
      invariant x >= 0 && y >= 0
      invariant Euclid(x, y) == Gcd(a, b)
      decreases y
    {
      if y == 0 {
        r := x;
        break;
      }
      if x == y {
        r := x;
        break;
      }
      if x < y {
        x, y := y, x;
      } else {
        x, y := y, x % y;
      }
    }
    GcdDivides(a, b);
  }

  /** gcm of src/evaluate.ts: the same loop without Math.abs. */
  method GcmLoop(a: int, b: int) returns (r: int)
    requires a >= 0 && b >= 0
    ensures r == Gcd(a, b)
  {
    var x, y := a, b;
    while true
      invariant x >= 0 && y >= 0
      invariant Euclid(x, y) == Euclid(a, b)
      decreases y
    {
      if y == 0 {
        r := x;
        break;
      }
      if x == y {
        r := x;
        break;
      }
      if x < y {
        x, y := y, x;
      } else {
        x, y := y, x % y;
      }
    }
  }

  /**
   * One iteration of gcm's loop with the host's remainder, which truncates toward
   * zero and takes the sign of the dividend. None means the loop returned.
   */
  function GcmStep(a: int, b: int): Option<(int, int)> {
    if b == 0 || a == b then None
    else if a < b then Some((b, a))
    else Some((b, TruncRem(a, b)))
  }

  /** The remainder operator % of the host language. */
  function TruncRem(a: int, b: int): int
    requires b != 0
  {
    var r := Abs(a) % Abs(b);
    if a < 0 then -r else r
  }

  /** gcm never returns on (-2, 3): from (-2, 1) two iterations come back to (-2, 1). */
  lemma GcmCyclesOnNegative()
    ensures GcmStep(-2, 3) == Some((3, -2))
    ensures GcmStep(3, -2) == Some((-2, 1))
    ensures GcmStep(-2, 1) == Some((1, -2))
    ensures GcmStep(1, -2) == Some((-2, 1))
  {
  }

  // ---- divisibility helpers ----

  lemma DividesRefl(a: int)
    ensures Divides(a, a) && Divides(a, 0)
  {
    assert a * 1 == a;
    assert a * 0 == 0;
  }

  lemma DividesAbs(d: int, x: int)
    ensures Divides(d, x) <==> Divides(d, Abs(x))
  {
    if Divides(d, x) {
      var k :| d * k == x;
      assert d * (-k) == -x;
    }
    if Divides(d, Abs(x)) {
      var k :| d * k == Abs(x);
      if x < 0 {
        assert d * (-k) == x;
      }
    }
  }

  /** What divides a and b divides every a - q * b. */
  lemma DividesLinear(d: int, a: int, b: int, q: int)
    requires Divides(d, a) && Divides(d, b)
    ensures Divides(d, a - q * b)
  {
    var ka :| d * ka == a;
    var kb :| d * kb == b;
    assert q * b == d * (q * kb) by {
      assert q * (d * kb) == d * (q * kb);
    }
    assert d * (ka - q * kb) == a - q * b;
  }

  lemma DividesSum(d: int, a: int, b: int, q: int)
    requires Divides(d, a) && Divides(d, b)
    ensures Divides(d, a + q * b)
  {
    DividesLinear(d, a, b, -q);
  }

  lemma DividesTrans(a: int, b: int, c: int)
    requires Divides(a, b) && Divides(b, c)
    ensures Divides(a, c)
  {
    var k :| a * k == b;
    var l :| b * l == c;
    assert a * (k * l) == c;
  }

  /** The k with d * k == x. */
  lemma Cofactor(d: int, x: int) returns (k: int)
    requires Divides(d, x)
    ensures d * k == x
  {
    k :| d * k == x;
  }

  // ---- properties of gcd ----

  /** The loop's result divides both operands. */
  lemma {:induction false} EuclidDivides(a: nat, b: nat)
    ensures Divides(Euclid(a, b), a) && Divides(Euclid(a, b), b)
    decreases b
  {
    if b == 0 || a == b {
      DividesRefl(a);
    } else if a < b {
      EuclidDivides(b, a);
    } else {
      var g := Euclid(b, a % b);
      EuclidDivides(b, a % b);
      assert a == a % b + (a / b) * b;
      DividesSum(g, a % b, b, a / b);
    }
  }

  /** Every common divisor of the operands divides the loop's result. */
  lemma {:induction false} EuclidGreatest(a: nat, b: nat, d: int)
    requires Divides(d, a) && Divides(d, b)
    ensures Divides(d, Euclid(a, b))
    decreases b
  {
    if b == 0 || a == b {
    } else if a < b {
      EuclidGreatest(b, a, d);
    } else {
      assert a % b == a - (a / b) * b;
      DividesLinear(d, a, b, a / b);
      EuclidGreatest(b, a % b, d);
    }
  }

  /** gcd(a, b) is a common divisor of a and b. */
  lemma GcdDivides(a: int, b: int)
    ensures Divides(Gcd(a, b), a) && Divides(Gcd(a, b), b)
  {
    EuclidDivides(Abs(a), Abs(b));
    DividesAbs(Gcd(a, b), a);
    DividesAbs(Gcd(a, b), b);
  }

  /** gcd(a, b) is the greatest common divisor: every common divisor divides it. */
  lemma GcdGreatest(a: int, b: int, d: int)
    requires Divides(d, a) && Divides(d, b)
    ensures Divides(d, Gcd(a, b))
  {
    DividesAbs(d, a);
    DividesAbs(d, b);
    EuclidGreatest(Abs(a), Abs(b), d);
  }

  /** The a < b branch only swaps, so gcd is symmetric. */
  lemma GcdSymmetric(a: int, b: int)
    ensures Gcd(a, b) == Gcd(b, a)
  {
  }

  /** gcd works on absolute values: gcd(a, 0) = gcd(a, a) = |a|, signs do not matter. */
  lemma GcdOnAbsoluteValues(a: int, b: int)
    ensures Gcd(a, 0) == Abs(a) && Gcd(a, a) == Abs(a)
    ensures Gcd(-a, b) == Gcd(a, b) && Gcd(a, -b) == Gcd(a, b)
  {
  }

  /** gcd is zero exactly when both operands are. */
  lemma GcdZero(a: int, b: int)
    ensures Gcd(a, b) == 0 <==> a == 0 && b == 0
  {
    GcdDivides(a, b);
    if Gcd(a, b) == 0 {
      var k :| 0 * k == a;
      var l :| 0 * l == b;
    }
  }

  // ---- lcm ----

  /** lcm(a, b) = a * b / gcd(a, b); None stands for the NaN of 0 / 0 when both are 0. */
  function Lcm(a: int, b: int): Option<int> {
    var g := Gcd(a, b);
    if g == 0 then None else Some((a * b) / g)
  }

  lemma ProductSign(g: int, n: int)
    requires g > 0
    ensures n > 0 ==> g * n >= g
    ensures n < 0 ==> g * n <= -g
    ensures n == 0 ==> g * n == 0
  {
  }

  /** An exact multiple divided by its factor gives the other factor back. */
  lemma DivideExactly(g: int, m: int)
    requires g > 0
    ensures (g * m) / g == m
  {
    var q, r := (g * m) / g, (g * m) % g;
    assert g * m == g * q + r && 0 <= r < g;
    assert g * (m - q) == r by {
      assert g * (m - q) == g * m - g * q;
    }
    ProductSign(g, m - q);
  }

  /**
   * lcm is undefined only for (0, 0); otherwise lcm * gcd = a * b, lcm is a common
   * multiple of a and b, and having taken no absolute value its sign is that of a * b.
   */
  lemma LcmProperties(a: int, b: int)
    ensures Lcm(a, b).None? <==> a == 0 && b == 0
    ensures Lcm(a, b).Some? ==>
      var l := Lcm(a, b).value;
      && l * Gcd(a, b) == a * b
      && Divides(a, l) && Divides(b, l)
      && (l > 0 <==> a * b > 0) && (l == 0 <==> a * b == 0)
  {
    GcdZero(a, b);
    var g := Gcd(a, b);
    if g != 0 {
      GcdDivides(a, b);
      var ka := Cofactor(g, a);
      var kb := Cofactor(g, b);
      CommonMultiple(a, b, g, ka, kb);
    }
  }

  /** The arithmetic behind LcmProperties, with a = g * ka and b = g * kb. */
  lemma CommonMultiple(a: int, b: int, g: int, ka: int, kb: int)
    requires g > 0 && g * ka == a && g * kb == b
    ensures var l := (a * b) / g;
      && l * g == a * b
      && Divides(a, l) && Divides(b, l)
      && (l > 0 <==> a * b > 0) && (l == 0 <==> a * b == 0)
  {
    var l := ka * b;
    assert a * b == g * l by {
      assert a * b == (g * ka) * b;
    }
    DivideExactly(g, l);
    assert b * ka == l;
    assert a * kb == l by {
      assert a * kb == (g * ka) * kb == ka * (g * kb);
    }
    ProductSign(g, l);
  }
}
