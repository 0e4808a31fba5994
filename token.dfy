/**
 * The first generation's values (src/token.ts): the syntax tree, the keyword registry
 * and the rational-number constructor.
 *
 * The shown text of src/token.ts does not hold `rational` nor the AST and Num types
 * the reader and the evaluator import from it; their definitions here follow the
 * expectations of src/token.spec.ts and the way the two importers use them.
 */
module Token {
  import opened NumberTheory

  /** AST of the first generation. Num and Rat together form the source's Num type. */
  datatype Ast =
    | Num(value: int)          // a plain number (integers only in this model)
    | Rat(up: int, down: int)  // { type: 'rational', up, down }
    | Str(chars: string)
    | Sym(name: string)        // Symbol.for(name): the same atom for the same name
    | Kw(name: string)         // keyword(name): the interned instance for that name
    | List(items: seq<Ast>)
  {
    predicate IsNumeric() {
      Num? || Rat?
    }
  }

  /** A rational at rest: positive denominator above 1, numerator and denominator coprime. */
  predicate Normalized(up: int, down: int) {
    down > 1 && Gcd(up, down) == 1
  }

  /** Every rational inside the tree is normalized. */
  predicate WellFormed(a: Ast) {
    match a
    case Rat(up, down) => Normalized(up, down)
    case List(items) => forall i | 0 <= i < |items| :: WellFormed(items[i])
    case _ => true
  }

  /**
   * rational(up, down), as the tests of src/token.spec.ts:5-28 expect it: reduce by the
   * gcd, put the sign on the numerator, and collapse to a plain number when the reduced
   * denominator is 1.
   */
  function MakeRational(up: int, down: int): (r: Ast)
    requires down != 0
  {
    GcdZero(up, down);
    var g := Gcd(up, down);
    var u, d := up / g, down / g;
    if d == 1 || d == -1 then Num(u * d)
    else if d < 0 then Rat(-u, -d)
    else Rat(u, d)
  }

  /** What the tests ask of rational: exact value, collapse exactly on divisibility, lowest terms. */
  lemma MakeRationalNormalizes(up: int, down: int)
    requires down != 0
    ensures var r := MakeRational(up, down);
      && (r.Num? || r.Rat?)
      && (r.Num? <==> Divides(down, up))
      && (r.Num? ==> r.value * down == up)
      && (r.Rat? ==> Normalized(r.up, r.down) && r.up * down == up * r.down)
  {
    var g, u0, d0 := Reduce(up, down);
    var r := MakeRational(up, down);
    if d0 == 1 || d0 == -1 {
      assert r == Num(u0 * d0);
      UnitValue(up, down, g, u0, d0);
      DividesWitness(down, u0 * d0, up);
    } else {
      NotUnitDenominator(up, down, g, u0, d0);
      if d0 < 0 {
        assert r == Rat(-u0, -d0);
        NegatedParts(up, down, g, u0, d0);
      } else {
        assert r == Rat(u0, d0);
        CrossProduct(g, u0, d0);
      }
    }
  }

  /** A negative reduced denominator: both signs flip, and the value stays. */
  lemma NegatedParts(up: int, down: int, g: int, u0: int, d0: int)
    requires g > 0 && g * u0 == up && g * d0 == down && Gcd(u0, d0) == 1 && d0 < -1
    ensures Normalized(-u0, -d0) && -u0 * down == up * -d0
  {
    GcdOnAbsoluteValues(u0, d0);
    GcdOnAbsoluteValues(-u0, d0);
    CrossProduct(g, -u0, -d0);
  }

  /** up and down divided by their gcd g, exactly, with nothing left in common. */
  lemma Reduce(up: int, down: int) returns (g: int, u0: int, d0: int)
    requires down != 0
    ensures g == Gcd(up, down) && g > 0
    ensures g * u0 == up && g * d0 == down && d0 != 0
    ensures up / g == u0 && down / g == d0
    ensures Gcd(u0, d0) == 1
  {
    g := Gcd(up, down);
    GcdZero(up, down);
    GcdDivides(up, down);
    u0 := Cofactor(g, up);
    d0 := Cofactor(g, down);
    DivideExactly(g, u0);
    DivideExactly(g, d0);
    ReducedIsCoprime(up, down, g, u0, d0);
  }

  lemma DividesWitness(d: int, k: int, x: int)
    requires d * k == x
    ensures Divides(d, x)
  {
  }

  /** A positive factor cancels from both sides of an equation. */
  lemma Cancel(g: int, x: int, y: int)
    requires g > 0 && g * x == g * y
    ensures x == y
  {
    assert g * (x - y) == g * x - g * y;
    ProductSign(g, x - y);
  }

  lemma Associate(a: int, b: int, c: int)
    ensures (a * b) * c == a * (b * c)
  {
  }

  /** Dividing both parts by their gcd leaves no common factor. */
  lemma ReducedIsCoprime(up: int, down: int, g: int, u0: int, d0: int)
    requires down != 0 && g == Gcd(up, down) && g > 0
    requires g * u0 == up && g * d0 == down
    ensures Gcd(u0, d0) == 1
  {
    var e := Gcd(u0, d0);
    assert d0 != 0;
    GcdDivides(u0, d0);
    GcdZero(u0, d0);
    var ku := Cofactor(e, u0);
    var kd := Cofactor(e, d0);
    Associate(g, e, ku);
    Associate(g, e, kd);
    DividesWitness(g * e, ku, up);
    DividesWitness(g * e, kd, down);
    GcdGreatest(up, down, g * e);
    var k := Cofactor(g * e, g);
    Associate(g, e, k);
    assert g * (e * k) == g * 1;
    Cancel(g, e * k, 1);
    UnitFactor(e, k);
  }

  lemma UnitFactor(e: int, k: int)
    requires e >= 0 && e * k == 1
    ensures e == 1
  {
    if e > 1 {
      if k > 0 {
        ProductSign(e, k);
      } else {
        ProductSign(e, k);
      }
    }
  }

  /** A common divisor of something with 1 is 1 or -1. */
  lemma DividesOne(d: int)
    requires Divides(d, 1)
    ensures d == 1 || d == -1
  {
    var m := Cofactor(d, 1);
    if d >= 0 {
      UnitFactor(d, m);
    } else {
      assert (-d) * (-m) == 1;
      UnitFactor(-d, -m);
    }
  }

  /** With a unit reduced denominator, numerator times sign is the value. */
  lemma UnitValue(up: int, down: int, g: int, u0: int, d0: int)
    requires g * u0 == up && g * d0 == down && (d0 == 1 || d0 == -1)
    ensures down * (u0 * d0) == up
  {
    if d0 == 1 {
      assert down == g;
    } else {
      assert down == -g;
    }
  }

  /** u * (g * d) == (g * u) * d. */
  lemma CrossProduct(g: int, u: int, d: int)
    ensures u * (g * d) == (g * u) * d
  {
  }

  /** The reduced denominator is a unit exactly when the denominator divides the numerator. */
  lemma NotUnitDenominator(up: int, down: int, g: int, u0: int, d0: int)
    requires down != 0 && g > 0
    requires g * u0 == up && g * d0 == down && Gcd(u0, d0) == 1
    requires d0 != 1 && d0 != -1
    ensures !Divides(down, up)
  {
    if Divides(down, up) {
      var k := Cofactor(down, up);
      Associate(g, d0, k);
      Cancel(g, d0 * k, u0);
      DividesWitness(d0, k, u0);
      DividesRefl(d0);
      GcdGreatest(u0, d0, d0);
      DividesOne(d0);
    }
  }

  /** The expectations of src/token.spec.ts:5-28. */
  lemma MakeRationalExamples()
    ensures MakeRational(2, 3) == Rat(2, 3)
    ensures MakeRational(2, 1) == Num(2) && MakeRational(4, 2) == Num(2)
    ensures MakeRational(3, 6) == MakeRational(1, 2) == Rat(1, 2)
    ensures MakeRational(-1, -2) == MakeRational(1, 2)
    ensures MakeRational(1, -2) == MakeRational(-1, 2) == Rat(-1, 2)
  {
    assert Gcd(2, 3) == 1 by { assert Euclid(2, 3) == Euclid(3, 2) == Euclid(2, 1) == 1; }
    assert Gcd(2, 1) == 1 by { assert Euclid(2, 1) == Euclid(1, 0); }
    assert Gcd(4, 2) == 2 by { assert Euclid(4, 2) == Euclid(2, 0); }
    assert Gcd(3, 6) == 3 by { assert Euclid(3, 6) == Euclid(6, 3) == Euclid(3, 0); }
    assert Gcd(1, 2) == 1 by { assert Euclid(1, 2) == Euclid(2, 1) == 1; }
    assert Gcd(-1, -2) == Gcd(1, -2) == Gcd(-1, 2) == Gcd(1, 2);
  }

  /** A rational already at rest is rebuilt unchanged, and an integer over 1 is that integer. */
  lemma MakeRationalOfNormalized(up: int, down: int)
    requires Normalized(up, down)
    ensures MakeRational(up, down) == Rat(up, down)
    ensures MakeRational(up, 1) == Num(up)
  {
    DivideExactly(1, up);
    DivideExactly(1, down);
    GcdOnAbsoluteValues(up, 1);
    assert Gcd(up, 1) == 1 by {
      assert Euclid(Abs(up), 1) == 1;
    }
  }

  /** An integer over 1 is that integer. */
  lemma MakeRationalOfInteger(n: int)
    ensures MakeRational(n, 1) == Num(n)
  {
    MakeRationalNormalizes(n, 1);
  }

  // ---- canonical form ----

  /** The numerator and denominator a numeric node stands for (a plain number is over 1). */
  function Fraction(a: Ast): (int, int)
    requires a.IsNumeric()
  {
    if a.Num? then (a.value, 1) else (a.up, a.down)
  }

  /**
   * rational is canonical: two fractions give the same node exactly when they are equal
   * as numbers, which is why the tests can compare its results with deep equality.
   */
  lemma MakeRationalCanonical(a: int, b: int, c: int, d: int)
    requires b != 0 && d != 0
    ensures MakeRational(a, b) == MakeRational(c, d) <==> a * d == c * b
  {
    var r1, r2 := MakeRational(a, b), MakeRational(c, d);
    MakeRationalNormalizes(a, b);
    MakeRationalNormalizes(c, d);
    var n1, e1 := FractionOfResult(a, b);
    var n2, e2 := FractionOfResult(c, d);
    if a * d == c * b {
      CrossMultiply(a, b, c, d, n1, e1, n2, e2);
      LowestTermsUnique(n1, e1, n2, e2);
    } else if r1 == r2 {
      SameFraction(a, b, c, d, n1, e1);
    }
  }

  /** What MakeRationalNormalizes says, in terms of the node's fraction. */
  lemma FractionOfResult(a: int, b: int) returns (n: int, e: int)
    requires b != 0
    ensures MakeRational(a, b).IsNumeric() && (n, e) == Fraction(MakeRational(a, b))
    ensures e >= 1 && Gcd(n, e) == 1 && n * b == a * e
  {
    MakeRationalNormalizes(a, b);
    var r := MakeRational(a, b);
    n, e := Fraction(r).0, Fraction(r).1;
    if r.Num? {
      GcdOnAbsoluteValues(n, 1);
      assert Gcd(n, 1) == Euclid(Abs(n), 1) == 1;
    }
  }

  /** Equal ratios a/b = c/d give equal cross products of their reduced forms. */
  lemma CrossMultiply(a: int, b: int, c: int, d: int, n1: int, e1: int, n2: int, e2: int)
    requires b != 0 && d != 0 && a * d == c * b
    requires n1 * b == a * e1 && n2 * d == c * e2
    ensures n1 * e2 == n2 * e1
  {
    calc {
      (n1 * e2) * (b * d);
      (n1 * b) * (d * e2);
      (a * e1) * (d * e2);
      (a * d) * (e1 * e2);
      (c * b) * (e1 * e2);
      (c * e2) * (b * e1);
      (n2 * d) * (b * e1);
      (n2 * e1) * (b * d);
    }
    CancelNonzero(b * d, n1 * e2, n2 * e1);
  }

  /** Two nodes from the same reduced fraction stand for equal ratios. */
  lemma SameFraction(a: int, b: int, c: int, d: int, n: int, e: int)
    requires b != 0 && d != 0 && e >= 1
    requires n * b == a * e && n * d == c * e
    ensures a * d == c * b
  {
    calc {
      (a * d) * e;
      (a * e) * d;
      (n * b) * d;
      (n * d) * b;
      (c * e) * b;
      (c * b) * e;
    }
    CancelNonzero(e, a * d, c * b);
  }

  lemma CancelNonzero(g: int, x: int, y: int)
    requires g != 0 && x * g == y * g
    ensures x == y
  {
    if g > 0 {
      Cancel(g, x, y);
    } else {
      assert (-g) * x == (-g) * y;
      Cancel(-g, x, y);
    }
  }

  /** A fraction has exactly one lowest-terms form with a positive denominator. */
  lemma LowestTermsUnique(p: int, q: int, p2: int, q2: int)
    requires q >= 1 && q2 >= 1 && Gcd(p, q) == 1 && Gcd(p2, q2) == 1
    requires p * q2 == p2 * q
    ensures p == p2 && q == q2
  {
    DividesWitness(q, p2, p * q2);
    CoprimeDivides(p, q, q2);
    DividesWitness(q2, p, p2 * q);
    CoprimeDivides(p2, q2, q);
    DividesBound(q, q2);
    DividesBound(q2, q);
    assert q == q2;
    Cancel(q, p, p2);
  }

  /** Euclid's lemma: q divides p * m and shares nothing with p, so q divides m. */
  lemma CoprimeDivides(p: int, q: int, m: int)
    requires q >= 1 && m >= 1 && Gcd(p, q) == 1 && Divides(q, p * m)
    ensures Divides(q, m)
  {
    DividesWitness(q, m, q * m);
    GcdGreatest(p * m, q * m, q);
    GcdScale(p, q, m);
  }

  lemma DividesBound(d: int, x: int)
    requires d >= 1 && x >= 1 && Divides(d, x)
    ensures d <= x
  {
    var k := Cofactor(d, x);
    if k <= 0 {
      ProductSign(d, k);
    } else {
      ProductSign(d, k);
      assert d * k >= d * 1;
    }
  }

  /** Multiplying both operands by m > 0 multiplies the gcd by m. */
  lemma GcdScale(a: int, b: int, m: int)
    requires m >= 1
    ensures Gcd(a * m, b * m) == m * Gcd(a, b)
  {
    AbsScale(a, m);
    AbsScale(b, m);
    EuclidScale(Abs(a), Abs(b), m);
  }

  lemma AbsScale(a: int, m: int)
    requires m >= 1
    ensures Abs(a * m) == Abs(a) * m
  {
    if a < 0 {
      assert a * m == -((-a) * m);
      ProductSign(m, -a);
    } else {
      ProductSign(m, a);
    }
  }

  lemma {:induction false} EuclidScale(a: nat, b: nat, m: nat)
    requires m >= 1
    ensures Euclid(a * m, b * m) == m * Euclid(a, b)
    decreases b
  {
    if b == 0 {
    } else if a == b {
    } else if a < b {
      ScaleOrder(a, b, m);
      EuclidScale(b, a, m);
    } else {
      ScaleOrder(b, a, m);
      ModScale(a, b, m);
      EuclidScale(b, a % b, m);
    }
  }

  lemma ScaleOrder(a: nat, b: nat, m: nat)
    requires m >= 1 && a < b
    ensures a * m < b * m && b * m != 0
  {
    ProductSign(m, b - a);
    assert m * (b - a) == b * m - a * m;
  }

  lemma ModScale(a: nat, b: nat, m: nat)
    requires m >= 1 && b >= 1
    ensures (a * m) % (b * m) == (a % b) * m
  {
    var q, r := a / b, a % b;
    assert a == q * b + r && 0 <= r < b;
    assert a * m == q * (b * m) + r * m by {
      assert a * m == (q * b + r) * m == q * b * m + r * m;
    }
    ScaleOrder(r, b, m);
    assert 0 <= r * m;
    ModUnique(a * m, b * m, q, r * m);
  }

  lemma ModUnique(x: int, n: int, q: int, r: int)
    requires n >= 1 && x == q * n + r && 0 <= r < n
    ensures x % n == r
  {
    var q2, r2 := x / n, x % n;
    assert x == q2 * n + r2 && 0 <= r2 < n;
    assert (q - q2) * n == r2 - r;
    if q - q2 > 0 {
      ProductSign(n, q - q2);
    } else if q - q2 < 0 {
      ProductSign(n, q - q2);
    }
  }

  // ---- keyword interning ----

  /** An interned keyword instance, { type: 'keyword', value }. */
  class Keyword {
    const value: string

    constructor (value: string)
      ensures this.value == value
    {
      this.value := value;
    }
  }

  /** The module-level `keywords` Map of src/token.ts, as an explicit registry object. */
  class KeywordTable {
    var keywords: map<string, Keyword>

    /** Each name is registered with an instance that carries that name. */
    ghost predicate Valid()
      reads this
    {
      forall v | v in keywords :: keywords[v].value == v
    }

    constructor ()
      ensures Valid() && keywords == map[]
    {
      keywords := map[];
    }

    /**
     * keyword(value): the registered instance if there is one, otherwise a new one,
     * which is registered. Entries are only ever added.
     */
    method Intern(value: string) returns (instance: Keyword)
      requires Valid()
      modifies this
      ensures Valid()
      ensures instance.value == value
      ensures keywords == old(keywords)[value := instance]
      ensures value in old(keywords) ==> instance == old(keywords)[value]
      ensures value !in old(keywords) ==> fresh(instance)
      ensures forall v | v in old(keywords) :: v in keywords && keywords[v] == old(keywords)[v]
    {
      if value in keywords {
        instance := keywords[value];
      } else {
        instance := new Keyword(value);
        keywords := keywords[value := instance];
      }
    }

    /** Two calls with the same name return the identical instance (src/reader.spec.ts:43-45). */
    method InternTwice(value: string) returns (first: Keyword, second: Keyword)
      requires Valid()
      modifies this
      ensures Valid() && first == second && first.value == value
      ensures keywords == old(keywords)[value := first]
    {
      first := Intern(value);
      second := Intern(value);
    }
  }

  /** In a valid registry, two instances are the same object exactly when their names are equal. */
  lemma InternedIdentity(t: KeywordTable, a: string, b: string)
    requires t.Valid() && a in t.keywords && b in t.keywords
    ensures t.keywords[a] == t.keywords[b] <==> a == b
  {
  }
}
