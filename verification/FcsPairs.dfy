/**
 Pairs of bit errors: the powers of x repeat modulo the polynomial of the frame check sequence
 after exactly 32767 steps, so that two flipped bits go unnoticed only that far apart.
 */
module FcsPairs {
  import opened Fcs

  const PERIOD := 32767

  // ----- powers of x

  /** The remainder of the n-th power of x; the top bit stands for one. */
  function Power(n: nat): bv16 {
    Steps(0x8000, n)
  }

  lemma {:induction false} StepsAdd(x: bv16, m: nat, n: nat)
    ensures Steps(x, m + n) == Steps(Steps(x, m), n)
    decreases m
  {
    hide Step;
    if m > 0 { StepsAdd(Step(x), m - 1, n); }
  }

  lemma StepIsInjective(x: bv16, y: bv16)
    requires x != y
    ensures Step(x) != Step(y)
  {
    hide Step;
    ShiftIsInjective(x, y, false);
  }

  lemma {:induction false} StepsAreInjective(x: bv16, y: bv16, n: nat)
    requires x != y
    ensures Steps(x, n) != Steps(y, n)
    decreases n
  {
    hide Step;
    if n > 0 {
      StepIsInjective(x, y);
      StepsAreInjective(Step(x), Step(y), n - 1);
    }
  }

  lemma PowerUnfold(n: nat)
    ensures Power(0) == 0x8000 && Power(n + 1) == Step(Power(n))
  {
    hide Step;
    StepsAdd(0x8000, n, 1);
    assert Steps(Power(n), 1) == Steps(Step(Power(n)), 0);
  }

  // ----- squaring

  /** Addition of remainders, under a name that proofs can leave alone. */
  function Xor(a: bv16, b: bv16): bv16 {
    a ^ b
  }

  function And(a: bv16, b: bv16): bv16 {
    a & b
  }

  predicate Has(u: bv16, m: bv16) {
    u & m != 0
  }

  lemma HasIsAnd(u: bv16, m: bv16)
    ensures Has(u, m) <==> And(u, m) != 0
  {
  }

  function Term(u: bv16, m: bv16, c: bv16): bv16 {
    if Has(u, m) then c else 0
  }

  function Sum4(a: bv16, b: bv16, c: bv16, d: bv16): bv16 {
    Xor(Xor(a, b), Xor(c, d))
  }

  function Quad(u: bv16, m0: bv16, m1: bv16, m2: bv16, m3: bv16, c0: bv16, c1: bv16, c2: bv16, c3: bv16): bv16 {
    Sum4(Term(u, m0, c0), Term(u, m1, c1), Term(u, m2, c2), Term(u, m3, c3))
  }

  /** The square of a remainder: each bit gives the square of its power of x. */
  function Square(u: bv16): bv16 {
    Sum4(Quad(u, 0x8000, 0x4000, 0x2000, 0x1000, 0x8000, 0x2000, 0x0800, 0x0200),
         Quad(u, 0x0800, 0x0400, 0x0200, 0x0100, 0x0080, 0x0020, 0x0008, 0x0002),
         Quad(u, 0x0080, 0x0040, 0x0020, 0x0010, 0x8408, 0x2102, 0x8c48, 0x2312),
         Quad(u, 0x0008, 0x0004, 0x0002, 0x0001, 0x8ccc, 0x2333, 0xcec0, 0x33b0))
  }

  predicate IsBit(m: bv16) {
    m != 0 && m & (m - 1) == 0
  }

  lemma BitIsAll(u: bv16, m: bv16)
    requires IsBit(m)
    ensures m != 0 && (And(u, m) == 0 || And(u, m) == m)
  {
  }

  lemma AndOfXor(u: bv16, v: bv16, m: bv16)
    ensures And(Xor(u, v), m) == Xor(And(u, m), And(v, m))
  {
  }

  lemma HasXor(u: bv16, v: bv16, m: bv16)
    requires IsBit(m)
    ensures Has(Xor(u, v), m) <==> (Has(u, m) != Has(v, m))
  {
    hide IsBit, And, Xor, Has;
    HasIsAnd(u, m);
    HasIsAnd(v, m);
    HasIsAnd(Xor(u, v), m);
    BitIsAll(u, m);
    BitIsAll(v, m);
    AndOfXor(u, v, m);
    XorZero(m);
    XorZero(0);
  }

  lemma XorZero(c: bv16)
    ensures Xor(c, c) == 0 && Xor(0, c) == c && Xor(c, 0) == c
  {
  }

  lemma TermIsLinear(u: bv16, v: bv16, m: bv16, c: bv16)
    requires IsBit(m)
    ensures Term(Xor(u, v), m, c) == Xor(Term(u, m, c), Term(v, m, c))
  {
    hide IsBit, Has, Xor, And;
    HasXor(u, v, m);
    XorZero(c);
    XorZero(0);
  }

  lemma XorAssociates(a: bv16, b: bv16, c: bv16)
    ensures Xor(Xor(a, b), c) == Xor(a, Xor(b, c)) && Xor(a, b) == Xor(b, a)
  {
  }

  lemma XorSwap(a: bv16, b: bv16, c: bv16, d: bv16)
    ensures Xor(Xor(a, b), Xor(c, d)) == Xor(Xor(a, c), Xor(b, d))
  {
    hide Xor;
    XorAssociates(a, b, Xor(c, d));
    XorAssociates(b, c, d);
    XorAssociates(c, b, d);
    XorAssociates(a, c, Xor(b, d));
  }

  lemma SumIsLinear(a: bv16, b: bv16, c: bv16, d: bv16, e: bv16, f: bv16, g: bv16, h: bv16)
    ensures Sum4(Xor(a, e), Xor(b, f), Xor(c, g), Xor(d, h)) == Xor(Sum4(a, b, c, d), Sum4(e, f, g, h))
  {
    hide Xor;
    XorSwap(a, e, b, f);
    XorSwap(c, g, d, h);
    XorSwap(Xor(a, b), Xor(e, f), Xor(c, d), Xor(g, h));
  }

  lemma QuadIsLinear(u: bv16, v: bv16, m0: bv16, m1: bv16, m2: bv16, m3: bv16, c0: bv16, c1: bv16, c2: bv16, c3: bv16)
    requires IsBit(m0) && IsBit(m1) && IsBit(m2) && IsBit(m3)
    ensures Quad(Xor(u, v), m0, m1, m2, m3, c0, c1, c2, c3) ==
            Xor(Quad(u, m0, m1, m2, m3, c0, c1, c2, c3), Quad(v, m0, m1, m2, m3, c0, c1, c2, c3))
  {
    hide Term, IsBit, Xor, Sum4;
    TermIsLinear(u, v, m0, c0);
    TermIsLinear(u, v, m1, c1);
    TermIsLinear(u, v, m2, c2);
    TermIsLinear(u, v, m3, c3);
    SumIsLinear(Term(u, m0, c0), Term(u, m1, c1), Term(u, m2, c2), Term(u, m3, c3),
                Term(v, m0, c0), Term(v, m1, c1), Term(v, m2, c2), Term(v, m3, c3));
  }

  lemma SquareIsLinear(u: bv16, v: bv16)
    ensures Square(Xor(u, v)) == Xor(Square(u), Square(v))
  {
    hide Quad, IsBit, Xor, Sum4;
    AreBits();
    QuadIsLinear(u, v, 0x8000, 0x4000, 0x2000, 0x1000, 0x8000, 0x2000, 0x0800, 0x0200);
    QuadIsLinear(u, v, 0x0800, 0x0400, 0x0200, 0x0100, 0x0080, 0x0020, 0x0008, 0x0002);
    QuadIsLinear(u, v, 0x0080, 0x0040, 0x0020, 0x0010, 0x8408, 0x2102, 0x8c48, 0x2312);
    QuadIsLinear(u, v, 0x0008, 0x0004, 0x0002, 0x0001, 0x8ccc, 0x2333, 0xcec0, 0x33b0);
    SumIsLinear(Quad(u, 0x8000, 0x4000, 0x2000, 0x1000, 0x8000, 0x2000, 0x0800, 0x0200),
                Quad(u, 0x0800, 0x0400, 0x0200, 0x0100, 0x0080, 0x0020, 0x0008, 0x0002),
                Quad(u, 0x0080, 0x0040, 0x0020, 0x0010, 0x8408, 0x2102, 0x8c48, 0x2312),
                Quad(u, 0x0008, 0x0004, 0x0002, 0x0001, 0x8ccc, 0x2333, 0xcec0, 0x33b0),
                Quad(v, 0x8000, 0x4000, 0x2000, 0x1000, 0x8000, 0x2000, 0x0800, 0x0200),
                Quad(v, 0x0800, 0x0400, 0x0200, 0x0100, 0x0080, 0x0020, 0x0008, 0x0002),
                Quad(v, 0x0080, 0x0040, 0x0020, 0x0010, 0x8408, 0x2102, 0x8c48, 0x2312),
                Quad(v, 0x0008, 0x0004, 0x0002, 0x0001, 0x8ccc, 0x2333, 0xcec0, 0x33b0));
  }

  lemma AreBits()
    ensures IsBit(0x8000) && IsBit(0x4000) && IsBit(0x2000) && IsBit(0x1000)
    ensures IsBit(0x0800) && IsBit(0x0400) && IsBit(0x0200) && IsBit(0x0100)
    ensures IsBit(0x0080) && IsBit(0x0040) && IsBit(0x0020) && IsBit(0x0010)
    ensures IsBit(0x0008) && IsBit(0x0004) && IsBit(0x0002) && IsBit(0x0001)
  {
  }

  lemma HalfOfXor(u: bv16, v: bv16)
    ensures (u ^ v) >> 1 == (u >> 1) ^ (v >> 1)
  {
  }

  lemma XorPolynomial(a: bv16, b: bv16, c: bv16)
    ensures (a ^ b) ^ c == (a ^ c) ^ b == a ^ (b ^ c) && (a ^ c) ^ (b ^ c) == a ^ b
  {
  }

  lemma StepIsLinear(u: bv16, v: bv16)
    ensures Step(Xor(u, v)) == Xor(Step(u), Step(v))
  {
    LowBitOfXor(u, v);
    HalfOfXor(u, v);
    XorPolynomial(u >> 1, v >> 1, 0x8408);
  }

  /** The square of x times a remainder is x times x times its square. */
  predicate SquareSteps(u: bv16) {
    Square(Step(u)) == Step(Step(Square(u)))
  }

  lemma Quarter0(u: bv16)
    requires u & 0x0fff == 0
    ensures SquareSteps(u)
  {
  }

  lemma Quarter1(u: bv16)
    requires u & 0xf0ff == 0
    ensures SquareSteps(u)
  {
  }

  lemma Quarter2(u: bv16)
    requires u & 0xff0f == 0
    ensures SquareSteps(u)
  {
  }

  lemma Quarter3(u: bv16)
    requires u & 0xfff0 == 0
    ensures SquareSteps(u)
  {
  }

  lemma SquareStepsAdd(u: bv16, v: bv16)
    requires SquareSteps(u) && SquareSteps(v)
    ensures SquareSteps(Xor(u, v))
  {
    hide Square, Step, Xor;
    StepIsLinear(u, v);
    SquareIsLinear(Step(u), Step(v));
    SquareIsLinear(u, v);
    StepIsLinear(Square(u), Square(v));
    StepIsLinear(Step(Square(u)), Step(Square(v)));
  }

  lemma Quarters(u: bv16) returns (a: bv16, b: bv16, c: bv16, d: bv16)
    ensures u == Xor(Xor(a, b), Xor(c, d))
    ensures a & 0x0fff == 0 && b & 0xf0ff == 0 && c & 0xff0f == 0 && d & 0xfff0 == 0
  {
    a, b, c, d := u & 0xf000, u & 0x0f00, u & 0x00f0, u & 0x000f;
  }

  lemma SquareOfStep(u: bv16)
    ensures SquareSteps(u)
  {
    hide SquareSteps, Xor;
    var a, b, c, d := Quarters(u);
    Quarter0(a);
    Quarter1(b);
    Quarter2(c);
    Quarter3(d);
    SquareStepsAdd(a, b);
    SquareStepsAdd(c, d);
    SquareStepsAdd(Xor(a, b), Xor(c, d));
  }

  lemma SquareOfOne()
    ensures Square(0x8000) == 0x8000
  {
  }

  lemma {:induction false} PowerDoubles(n: nat)
    ensures Power(2 * n) == Square(Power(n))
  {
    hide Step, Square, Power;
    PowerUnfold(n);
    if n == 0 {
      SquareOfOne();
    } else {
      PowerDoubles(n - 1);
      PowerUnfold(n - 1);
      PowerUnfold(2 * n - 2);
      PowerUnfold(2 * n - 1);
      SquareOfStep(Power(n - 1));
    }
  }


  // ----- the period

  predicate Returns(n: nat) {
    Power(n) == 0x8000
  }

  lemma ReturnsSum(m: nat, n: nat)
    requires Returns(m)
    ensures Returns(m + n) <==> Returns(n)
  {
    hide Step;
    StepsAdd(0x8000, m, n);
  }

  lemma {:induction false} ReturnsMultiple(m: nat, k: nat)
    requires Returns(m)
    ensures Returns(m * k)
  {
    hide Returns;
    if k == 0 {
      ReturnsAtZero();
    } else {
      ReturnsMultiple(m, k - 1);
      ReturnsSum(m, m * (k - 1));
      assert m + m * (k - 1) == m * k;
    }
  }

  lemma ReturnsAtZero()
    ensures Returns(0)
  {
  }

  lemma SmallFactor(p: nat, s: nat, r: nat)
    requires p == 7 || p == 31 || p == 151
    requires 2 <= s <= 12 && s < p
    ensures s * r != p
  {
    if s == 2 { assert s * r == 2 * r; }
    else if s == 3 { assert s * r == 3 * r; }
    else if s == 4 { assert s * r == 4 * r; }
    else if s == 5 { assert s * r == 5 * r; }
    else if s == 6 { assert s * r == 6 * r; }
    else if s == 7 { assert s * r == 7 * r; }
    else if s == 8 { assert s * r == 8 * r; }
    else if s == 9 { assert s * r == 9 * r; }
    else if s == 10 { assert s * r == 10 * r; }
    else if s == 11 { assert s * r == 11 * r; }
    else { assert s * r == 12 * r; }
  }

  lemma NoFactor(p: nat, t: nat)
    requires p == 7 || p == 31 || p == 151
    requires 1 < t < p
    ensures p % t != 0
  {
    if p % t == 0 {
      var q := p / t;
      QuotientIs(p, t);
      if t <= 12 {
        SmallFactor(p, t, q);
      } else if q <= 12 {
        SmallFactor(p, q, t);
      } else {
        TooLarge(t, q);
      }
    }
  }

  lemma QuotientIs(p: nat, t: nat)
    requires 1 < t < p && p % t == 0
    ensures var q := p / t; t * q == q * t == p && 2 <= q < p
  {
    Division(p, t);
    FactorIsSmaller(p, t, p / t);
  }

  lemma Division(p: nat, t: nat)
    requires t > 0
    ensures p == t * (p / t) + p % t
  {
  }

  lemma FactorIsSmaller(p: nat, t: nat, q: nat)
    requires 1 < t < p && t * q == p
    ensures 2 <= q < p
  {
    assert t * q >= 2 * q;
    assert t * 1 == t && t * 0 == 0;
  }

  lemma TooLarge(t: nat, q: nat)
    requires t >= 13 && q >= 13
    ensures t * q >= 169
  {
  }

  /** A return after u times less than a prime, and after u times the prime, is one after u. */
  lemma {:induction false} Descends(p: nat, u: nat, t: nat)
    requires p == 7 || p == 31 || p == 151
    requires 0 < t < p && Returns(u * t) && Returns(u * p)
    ensures Returns(u)
    decreases t
  {
    hide Returns;
    if t > 1 {
      NoFactor(p, t);
      Times(u, p, t);
      ReturnsMultiple(u * t, p / t);
      ReturnsSum(u * t * (p / t), u * (p % t));
      Descends(p, u, p % t);
    } else {
      assert u * t == u;
    }
  }

  lemma Times(u: nat, p: nat, t: nat)
    requires t > 0
    ensures u * p == u * t * (p / t) + u * (p % t)
  {
    Division(p, t);
    assert u * t * (p / t) == u * (t * (p / t));
  }

  /** If u steps do not return, every return is at a multiple of the prime. */
  lemma ReturnsAtMultiples(p: nat, u: nat, d: nat)
    requires p == 7 || p == 31 || p == 151
    requires !Returns(u) && Returns(u * p) && Returns(d)
    ensures d % p == 0
  {
    hide Returns;
    if d % p != 0 {
      ReturnsMultiple(d, u);
      Times(u, d, p);
      assert d * u == u * d;
      ReturnsMultiple(u * p, d / p);
      ReturnsSum(u * p * (d / p), u * (d % p));
      Descends(p, u, d % p);
    }
  }

  lemma AllThree(d: nat)
    requires d % 7 == 0 && d % 31 == 0 && d % 151 == 0
    ensures d % PERIOD == 0
  {
    var a, b, c := d / 7, d / 31, d / 151;
    assert d == 217 * (9 * b - 2 * a);
    var e := 9 * b - 2 * a;
    assert d == PERIOD * (23 * e - 16 * c);
    MultipleOf(d, 23 * e - 16 * c);
  }

  lemma MultipleOf(d: nat, k: int)
    requires d == PERIOD * k
    ensures d % PERIOD == 0
  {
  }

  // ----- five powers, by squaring

  lemma Doubled(n: nat, v: bv16, w: bv16)
    requires Power(n) == v && Square(v) == w
    ensures Power(2 * n) == w
  {
    hide Step, Square, Power;
    PowerDoubles(n);
  }

  lemma DoubledPlus(n: nat, v: bv16, w: bv16)
    requires Power(n) == v && Step(Square(v)) == w
    ensures Power(2 * n + 1) == w
  {
    hide Step, Square, Power;
    PowerDoubles(n);
    PowerUnfold(2 * n);
  }

  lemma PowerOfOne()
    ensures Power(1) == 0x4000
  {
    PowerUnfold(0);
  }

  lemma PowerOf27()
    ensures Power(27) == 0x9591
  {
    hide Power;
    PowerOfOne();
    DoubledPlus(1, 0x4000, 0x1000);
    Doubled(3, 0x1000, 0x0200);
    DoubledPlus(6, 0x0200, 0x0004);
    DoubledPlus(13, 0x0004, 0x9591);
  }

  lemma PowerOf217()
    ensures Power(217) == 0xc712
  {
    hide Power;
    PowerOf27();
    Doubled(27, 0x9591, 0x1688);
    Doubled(54, 0x1688, 0x0aec);
    DoubledPlus(108, 0x0aec, 0xc712);
  }

  lemma PowerOf16()
    ensures Power(16) == 0x8408
  {
    hide Power;
    PowerOfOne();
    Doubled(1, 0x4000, 0x2000);
    Doubled(2, 0x2000, 0x0800);
    Doubled(4, 0x0800, 0x0080);
    Doubled(8, 0x0080, 0x8408);
  }

  lemma PowerOf264()
    ensures Power(264) == 0x629a
  {
    hide Power;
    PowerOf16();
    DoubledPlus(16, 0x8408, 0x0676);
    Doubled(33, 0x0676, 0x6383);
    Doubled(66, 0x6383, 0x5172);
    Doubled(132, 0x5172, 0x629a);
  }

  lemma PowerOf1057()
    ensures Power(1057) == 0xf54f
  {
    hide Power;
    PowerOf264();
    Doubled(264, 0x629a, 0xcd1e);
    DoubledPlus(528, 0xcd1e, 0xf54f);
  }

  lemma PowerOf18()
    ensures Power(18) == 0x2102
  {
    hide Power;
    PowerOfOne();
    Doubled(1, 0x4000, 0x2000);
    Doubled(2, 0x2000, 0x0800);
    DoubledPlus(4, 0x0800, 0x0040);
    Doubled(9, 0x0040, 0x2102);
  }

  lemma PowerOf292()
    ensures Power(292) == 0x69c8
  {
    hide Power;
    PowerOf18();
    Doubled(18, 0x2102, 0xc6c2);
    DoubledPlus(36, 0xc6c2, 0x65f1);
    Doubled(73, 0x65f1, 0x11c2);
    Doubled(146, 0x11c2, 0x69c8);
  }

  lemma PowerOf4681()
    ensures Power(4681) == 0x4234
  {
    hide Power;
    PowerOf292();
    DoubledPlus(292, 0x69c8, 0x00a2);
    Doubled(585, 0x00a2, 0xc680);
    Doubled(1170, 0xc680, 0x2420);
    DoubledPlus(2340, 0x2420, 0x4234);
  }

  lemma PowerOf63()
    ensures Power(63) == 0x042b
  {
    hide Steps;
    PowerOfOne();
    DoubledPlus(1, 0x4000, 0x1000);
    DoubledPlus(3, 0x1000, 0x0100);
    DoubledPlus(7, 0x0100, 0x0001);
    DoubledPlus(15, 0x0001, 0x19d8);
    DoubledPlus(31, 0x19d8, 0x042b);
  }

  lemma PowerOf2047()
    ensures Power(2047) == 0x157e
  {
    hide Power;
    PowerOf63();
    DoubledPlus(63, 0x042b, 0x7eea);
    DoubledPlus(127, 0x7eea, 0x20f3);
    DoubledPlus(255, 0x20f3, 0x7f90);
    DoubledPlus(511, 0x7f90, 0x46d8);
    DoubledPlus(1023, 0x46d8, 0x157e);
  }

  lemma PowerOfPeriod()
    ensures Power(32767) == 0x8000
  {
    hide Power;
    PowerOf2047();
    DoubledPlus(2047, 0x157e, 0xf2aa);
    DoubledPlus(4095, 0xf2aa, 0x7022);
    DoubledPlus(8191, 0x7022, 0x3444);
    DoubledPlus(16383, 0x3444, 0x8000);
  }

  /** The powers of x come back to one exactly at the multiples of 32767. */
  lemma ReturnsExactly(d: nat)
    ensures Returns(d) <==> d % PERIOD == 0
  {
    hide Power, Square, Step, Returns;
    NoReturnEarly();
    if Returns(d) {
      ReturnsAtMultiples(7, 4681, d);
      ReturnsAtMultiples(31, 1057, d);
      ReturnsAtMultiples(151, 217, d);
      AllThree(d);
    }
    if d % PERIOD == 0 {
      ReturnsMultiple(PERIOD, d / PERIOD);
      assert PERIOD * (d / PERIOD) == d;
    }
  }

  lemma NoReturnEarly()
    ensures Returns(PERIOD) && !Returns(4681) && !Returns(1057) && !Returns(217)
  {
    hide Power;
    PowerOfPeriod();
    PowerOf4681();
    PowerOf1057();
    PowerOf217();
  }

  // ----- two flipped bits

  /** Two bit sequences that differ in exactly two places. */
  predicate PairAt(a: seq<bool>, b: seq<bool>, i: nat, k: nat) {
    && |a| == |b| && i < k < |a|
    && forall m | 0 <= m < |a| :: a[m] != b[m] <==> m == i || m == k
  }

  function Flip(b: bool): bv16 {
    if b then 1 else 0
  }

  lemma ShiftIs(x: bv16, b: bool)
    ensures Shift(x, b) == Step(Xor(x, Flip(b)))
  {
    hide Step;
    XorZero(x);
  }

  lemma FlipXor(b: bool, c: bool)
    ensures Xor(Flip(b), Flip(c)) == Flip(b != c)
  {
  }

  lemma DifferenceShifts(x: bv16, y: bv16, b: bool, c: bool)
    ensures Xor(Shift(x, b), Shift(y, c)) == Step(Xor(Xor(x, y), Flip(b != c)))
  {
    hide Step, Shift, Xor, Flip;
    ShiftIs(x, b);
    ShiftIs(y, c);
    StepIsLinear(Xor(x, Flip(b)), Xor(y, Flip(c)));
    XorSwap(x, Flip(b), y, Flip(c));
    FlipXor(b, c);
  }

  /** Equal bits step a difference along. */
  lemma {:induction false} DifferenceSteps(x: bv16, y: bv16, s: seq<bool>)
    ensures Xor(Divide(x, s), Divide(y, s)) == Steps(Xor(x, y), |s|)
    decreases |s|
  {
    hide Shift, Step, Xor;
    if s != [] {
      DifferenceShifts(x, y, s[0], s[0]);
      XorZero(Xor(x, y));
      DifferenceSteps(Shift(x, s[0]), Shift(y, s[0]), s[1..]);
    }
  }

  lemma XorIsZero(x: bv16, y: bv16)
    ensures Xor(x, y) == 0 <==> x == y
  {
    hide Xor;
    XorAssociates(x, x, y);
    XorZero(x);
    XorZero(y);
  }

  /** The second flip undoes the first exactly when one has come round to one. */
  lemma PairIsUnseen(x: bv16, a: seq<bool>, b: seq<bool>, i: nat, k: nat)
    requires PairAt(a, b, i, k)
    ensures Divide(x, a) == Divide(x, b) <==> Steps(1, k - i) == 1
  {
    hide Divide, Shift, Step, Xor;
    var x0 := Divide(x, a[..i]);
    Cut(x, a, i);
    Cut(x, b, i);
    assert a[..i] == b[..i];
    FirstFlip(x0, a[i], b[i]);
    SameBetween(a, b, i, k);
    SecondFlip(Shift(x0, a[i]), Shift(x0, b[i]), a[i + 1..], b[i + 1..], k - i - 1);
  }

  lemma SameBetween(a: seq<bool>, b: seq<bool>, i: nat, k: nat)
    requires PairAt(a, b, i, k)
    ensures var s, t, n := a[i + 1..], b[i + 1..], k - i - 1;
            s[..n] == t[..n] && s[n] != t[n] && s[n + 1..] == t[n + 1..]
  {
    var s, t, n := a[i + 1..], b[i + 1..], k - i - 1;
    forall m | 0 <= m < |s| ensures s[m] != t[m] <==> m == n {
      assert s[m] == a[i + 1 + m] && t[m] == b[i + 1 + m];
    }
  }

  lemma FirstFlip(x: bv16, b: bool, c: bool)
    requires b != c
    ensures Xor(Shift(x, b), Shift(x, c)) == Step(1)
  {
    hide Shift, Step, Xor;
    DifferenceShifts(x, x, b, c);
    XorIsZero(x, x);
    XorZero(1);
  }

  lemma SecondFlip(x: bv16, y: bv16, a: seq<bool>, b: seq<bool>, n: nat)
    requires |a| == |b| && n < |a| && a[..n] == b[..n] && a[n] != b[n] && a[n + 1..] == b[n + 1..]
    ensures Divide(x, a) == Divide(y, b) <==> Steps(Xor(x, y), n) == 1
  {
    hide Divide, Shift, Steps, Xor;
    Cut(x, a, n);
    Cut(y, b, n);
    DifferenceSteps(x, y, a[..n]);
    LastFlip(Divide(x, a[..n]), Divide(y, b[..n]), a[n], b[n], a[n + 1..]);
  }

  lemma Cut(x: bv16, s: seq<bool>, i: nat)
    requires i < |s|
    ensures Divide(x, s) == Divide(Shift(Divide(x, s[..i]), s[i]), s[i + 1..])
  {
    hide Shift;
    assert s == s[..i] + s[i..] && s[i..][1..] == s[i + 1..];
    DivideConcat(x, s[..i], s[i..]);
  }

  lemma LastFlip(x: bv16, y: bv16, b: bool, c: bool, s: seq<bool>)
    requires b != c
    ensures Divide(Shift(x, b), s) == Divide(Shift(y, c), s) <==> Xor(x, y) == 1
  {
    hide Divide, Shift, Step, Xor;
    DifferenceShifts(x, y, b, c);
    var d := Xor(Xor(x, y), 1);
    XorIsZero(Xor(x, y), 1);
    NothingSteps();
    if d != 0 { StepIsInjective(d, 0); }
    XorIsZero(Shift(x, b), Shift(y, c));
    if Shift(x, b) != Shift(y, c) { DifferenceSurvives(Shift(x, b), Shift(y, c), s); }
  }

  lemma NothingSteps()
    ensures Step(0) == 0
  {
  }

  /** Of all messages with two flipped bits exactly those pass unseen in which the two are a
      multiple of 32767 bits apart. */
  lemma PairsAreDetected(a: seq<bv8>, b: seq<bv8>, i: nat, k: nat)
    requires PairAt(Bits(a), Bits(b), i, k) && GoodFrame(a)
    ensures GoodFrame(b) <==> (k - i) % PERIOD == 0
  {
    hide Bits, PairAt, Steps, Divide, Returns, Power;
    PairIsOrdered(Bits(a), Bits(b), i, k);
    PairIsUnseen(INIT_FCS, Bits(a), Bits(b), i, k);
    OneReturns(k - i);
    ReturnsExactly(k - i);
  }

  lemma PairIsOrdered(a: seq<bool>, b: seq<bool>, i: nat, k: nat)
    requires PairAt(a, b, i, k)
    ensures i < k < |a|
  {
  }

  lemma OneReturns(d: nat)
    ensures Steps(1, d) == 1 <==> Returns(d)
  {
    hide Steps, Step;
    OneIsPower();
    StepsAdd(0x8000, 15, d);
    StepsAdd(0x8000, d, 15);
    if Power(d) != 0x8000 { StepsAreInjective(Power(d), 0x8000, 15); }
  }

  lemma OneIsPower()
    ensures Steps(0x8000, 15) == 1
  {
    hide Steps;
    PowerOfOne();
    DoubledPlus(1, 0x4000, 0x1000);
    DoubledPlus(3, 0x1000, 0x0100);
    DoubledPlus(7, 0x0100, 0x0001);
  }

  /** So every two flipped bits in a frame of less than 4096 octets are caught. */
  lemma PairsInFramesAreDetected(a: seq<bv8>, b: seq<bv8>, i: nat, k: nat)
    requires |a| < 4096 && PairAt(Bits(a), Bits(b), i, k) && GoodFrame(a)
    ensures !GoodFrame(b)
  {
    hide GoodFrame;
    PairsAreDetected(a, b, i, k);
  }
}
