/**
 Two wrong bits in a data packet. The polynomial is x + 1 times
 x^15 + x + 1, and the powers of x modulo the second factor repeat after
 32767 turns and not before.
 */
module DoubleErrors {
  import opened Words
  import opened Crc16
  import opened Patterns

  /** A register that the second factor annihilates. */
  function Seed(): Register { Zeros(13) + [true, false, true] }

  /** Bit j of the seed after n turns. */
  function At(n: nat, j: nat): bool
    requires j < 16
  {
    Shifts(n, Seed())[j]
  }

  function Falling(n: nat): Register
    requires n <= 13
  {
    Zeros(13 - n) + [true, false, true] + Zeros(n)
  }

  /** For thirteen turns the seed only falls. */
  lemma {:induction false} Falls(n: nat)
    requires n <= 13
    ensures Shifts(n, Seed()) == Falling(n)
  {
    if n == 0 {
      assert Seed() == Falling(0);
    } else {
      Falls(n - 1);
      ShiftsAppend(n - 1, 1, Seed());
      assert Shifts(1, Falling(n - 1)) == Shifts(0, Shift(Falling(n - 1)));
      assert Shift(Falling(n - 1)) == Falling(n);
    }
  }

  lemma Turns()
    ensures Shift(Shift(Falling(13))) == Zeros(12) + Ones(4)
  {
    var a, b := Falling(13), [true, true] + Zeros(11) + [true, false, true];
    assert a[0] && a[1..] + [false] == [false, true] + Zeros(14);
    assert Shift(a) == b;
    assert b[0] && b[1..] + [false] == [true] + Zeros(11) + [true, false, true, false];
  }

  lemma Fifteen()
    ensures Shifts(15, Seed()) == Xor(Shifts(1, Seed()), Seed())
  {
    Falls(13);
    Falls(1);
    ShiftsAppend(13, 2, Seed());
    Turns();
    TwoShifts(Falling(13));
    FirstTwo();
  }

  lemma FirstTwo()
    ensures Xor(Falling(1), Seed()) == Zeros(12) + Ones(4)
  {
    var x := Xor(Falling(1), Seed());
    forall i | 0 <= i < 16 ensures x[i] == (i >= 12) {
      assert Falling(1)[i] == (i == 12 || i == 14) && Seed()[i] == (i == 13 || i == 15);
    }
  }

  lemma {:induction false} ShiftsLinear(n: nat, r: Register, s: Register)
    ensures Shifts(n, Xor(r, s)) == Xor(Shifts(n, r), Shifts(n, s))
    decreases n
  {
    if n > 0 {
      ShiftLinear(r, s);
      ShiftsLinear(n - 1, Shift(r), Shift(s));
    }
  }

  /** The second factor: x^15 = x + 1. */
  lemma Relation(n: nat, j: nat)
    requires j < 16
    ensures At(n + 15, j) == (At(n + 1, j) != At(n, j))
  {
    Fifteen();
    ShiftsAppend(15, n, Seed());
    ShiftsAppend(1, n, Seed());
    ShiftsLinear(n, Shifts(1, Seed()), Seed());
    assert n + 15 == 15 + n && n + 1 == 1 + n;
  }

  /** Squaring it: x^(15 * 2^k) = x^(2^k) + 1. */
  lemma {:induction false} Squared(k: nat, n: nat, j: nat)
    requires j < 16
    ensures At(n + 15 * Pow2(k), j) == (At(n + Pow2(k), j) != At(n, j))
    decreases k
  {
    if k == 0 {
      Relation(n, j);
    } else {
      var a := Pow2(k - 1);
      Squared(k - 1, n + 15 * a, j);
      Squared(k - 1, n + a, j);
      Squared(k - 1, n, j);
      assert n + 15 * a + 15 * a == n + 15 * Pow2(k) && n + 15 * a + a == n + a + 15 * a;
      assert n + a + a == n + Pow2(k);
    }
  }

  /** Hence x^(2^(k + 4)) = x^(2^(k + 1)) + x^(2^k). */
  lemma Sixteen(k: nat, n: nat, j: nat)
    requires j < 16
    ensures At(n + 16 * Pow2(k), j) == (At(n + 2 * Pow2(k), j) != At(n + Pow2(k), j))
  {
    Squared(k, n + Pow2(k), j);
    assert n + Pow2(k) + 15 * Pow2(k) == n + 16 * Pow2(k);
  }

  /** The powers x^(2^k) that the divisors of 32767 are made of. */
  lemma SmallPowers(n: nat, j: nat)
    requires j < 16
    ensures At(n + 16, j) == (At(n + 2, j) != At(n + 1, j))
    ensures At(n + 32, j) == (At(n + 4, j) != At(n + 2, j))
    ensures At(n + 64, j) == (At(n + 8, j) != At(n + 4, j))
  {
    assert Pow2(0) == 1 && Pow2(1) == 2 && Pow2(2) == 4;
    Sixteen(0, n, j);
    Sixteen(1, n, j);
    Sixteen(2, n, j);
  }

  lemma MiddlePowers(n: nat, j: nat)
    requires j < 16
    ensures At(n + 128, j) == ((At(n + 8, j) != At(n + 2, j)) != At(n + 1, j))
    ensures At(n + 256, j) == (At(n + 4, j) != At(n + 1, j))
    ensures At(n + 512, j) == (At(n + 8, j) != At(n + 2, j))
  {
    assert Pow2(3) == 8 && Pow2(4) == 16 && Pow2(5) == 32;
    SmallPowers(n, j);
    Sixteen(3, n, j);
    Sixteen(4, n, j);
    Sixteen(5, n, j);
  }

  lemma LargePowers(n: nat, j: nat)
    requires j < 16
    ensures At(n + 1024, j) == ((At(n + 4, j) != At(n + 2, j)) != At(n + 1, j))
    ensures At(n + 2048, j) == ((At(n + 8, j) != At(n + 4, j)) != At(n + 2, j))
    ensures At(n + 4096, j) == (((At(n + 8, j) != At(n + 4, j)) != At(n + 2, j)) != At(n + 1, j))
  {
    assert Pow2(6) == 64 && Pow2(7) == 128 && Pow2(8) == 256;
    SmallPowers(n, j);
    MiddlePowers(n, j);
    Sixteen(6, n, j);
    Sixteen(7, n, j);
    Sixteen(8, n, j);
  }

  lemma LastPowers(n: nat, j: nat)
    requires j < 16
    ensures At(n + 32768, j) == At(n + 1, j)
  {
    assert Pow2(9) == 512 && Pow2(10) == 1024 && Pow2(11) == 2048;
    MiddlePowers(n, j);
    LargePowers(n, j);
    Sixteen(9, n, j);
    Sixteen(10, n, j);
    Sixteen(11, n, j);
  }

  predicate Period(n: nat) { Shifts(n, Seed()) == Seed() }

  lemma Full()
    ensures Period(32767)
  {
    forall j | 0 <= j < 16 ensures Shifts(32768, Seed())[j] == Shifts(1, Seed())[j] { LastPowers(0, j); }
    ShiftsAppend(32767, 1, Seed());
    ShiftsInjective(1, Shifts(32767, Seed()), Seed());
  }

  /** Bits 14 and 15 of the falling seed. */
  lemma TopBits(n: nat)
    requires n <= 13
    ensures At(n, 15) == (n == 0) && At(n, 14) == (n == 1)
  {
    Falls(n);
  }

  /** x^4681 = x^12 + x^10 + x^9 + x^5 + x^4 + x, which lacks the 1. */
  lemma Not4681()
    ensures !Period(4681)
  {
    Reduced4681(15);
    TopAll();
  }

  lemma TopAll()
    ensures forall n :: 0 <= n <= 13 ==> At(n, 15) == (n == 0) && At(n, 14) == (n == 1)
  {
    forall n | 0 <= n <= 13 ensures At(n, 15) == (n == 0) && At(n, 14) == (n == 1) { TopBits(n); }
  }

  /** Exponents above 14, in terms of smaller ones. */
  lemma UpTo24(j: nat)
    requires j < 16
    ensures At(15, j) == (At(1, j) != At(0, j))
    ensures At(16, j) == (At(2, j) != At(1, j))
    ensures At(17, j) == (At(3, j) != At(2, j))
    ensures At(18, j) == (At(4, j) != At(3, j))
    ensures At(19, j) == (At(5, j) != At(4, j))
    ensures At(20, j) == (At(6, j) != At(5, j))
    ensures At(21, j) == (At(7, j) != At(6, j))
    ensures At(22, j) == (At(8, j) != At(7, j))
    ensures At(23, j) == (At(9, j) != At(8, j))
    ensures At(24, j) == (At(10, j) != At(9, j))
  {
    hide At;
    Relation(0, j);
    SmallPowers(0, j);
    SmallPowers(1, j);
    SmallPowers(2, j);
    SmallPowers(3, j);
    SmallPowers(4, j);
    SmallPowers(5, j);
    SmallPowers(6, j);
    SmallPowers(7, j);
    SmallPowers(8, j);
  }

  lemma UpTo33(j: nat)
    requires j < 16
    ensures At(25, j) == (At(11, j) != At(10, j))
    ensures At(26, j) == (At(12, j) != At(11, j))
    ensures At(27, j) == (At(13, j) != At(12, j))
    ensures At(28, j) == (At(14, j) != At(13, j))
    ensures At(29, j) == (At(15, j) != At(14, j))
    ensures At(30, j) == (At(16, j) != At(15, j))
    ensures At(31, j) == (At(17, j) != At(16, j))
    ensures At(32, j) == (At(18, j) != At(17, j))
    ensures At(33, j) == (At(19, j) != At(18, j))
  {
    hide At;
    SmallPowers(9, j);
    SmallPowers(10, j);
    SmallPowers(11, j);
    SmallPowers(12, j);
    SmallPowers(13, j);
    SmallPowers(14, j);
    SmallPowers(15, j);
    SmallPowers(16, j);
    SmallPowers(17, j);
  }

  lemma Reduced4681(j: nat)
    requires j < 16
    ensures At(4681, j) == (((((At(12, j) != At(10, j)) != At(9, j)) != At(5, j)) != At(4, j)) != At(1, j))
  {
    hide At;
    LargePowers(585, j);
    Reduced585(8, j);
    Reduced585(4, j);
    Reduced585(2, j);
    Reduced585(1, j);
    UpTo24(j);
    UpTo33(j);
  }

  /** x^585 = (x^8 + x^2) (x^8 + x^4) x^9. */
  lemma Reduced585(m: nat, j: nat)
    requires j < 16
    ensures At(m + 585, j) == (((At(m + 25, j) != At(m + 21, j)) != At(m + 19, j)) != At(m + 15, j))
  {
    hide At;
    MiddlePowers(m + 73, j);
    SmallPowers(m + 17, j);
    SmallPowers(m + 11, j);
  }

  lemma Reduced1057(j: nat)
    requires j < 16
    ensures At(1057, j) == (((At(9, j) != At(6, j)) != At(5, j)) != At(4, j))
  {
    hide At;
    LargePowers(33, j);
    SmallPowers(5, j);
    SmallPowers(3, j);
    SmallPowers(2, j);
    UpTo24(j);
    UpTo33(j);
  }

  lemma Reduced89(m: nat, j: nat)
    requires j < 16
    ensures At(m + 89, j) == (((At(m + 19, j) != At(m + 18, j)) != At(m + 15, j)) != At(m + 14, j))
  {
    hide At;
    SmallPowers(m + 25, j);
    SmallPowers(m + 17, j);
    SmallPowers(m + 13, j);
  }

  lemma Reduced217(j: nat)
    requires j < 16
    ensures (At(217, j) != At(0, j)) == ((((((((At(13, j) != At(11, j)) != At(9, j)) != At(6, j)) != At(5, j))
      != At(4, j)) != At(3, j)) != At(2, j)) != At(1, j))
  {
    hide At;
    MiddlePowers(89, j);
    Reduced89(8, j);
    Reduced89(2, j);
    Reduced89(1, j);
    UpTo24(j);
    UpTo33(j);
  }

  lemma Not1057()
    ensures !Period(1057)
  {
    Reduced1057(15);
    TopAll();
  }

  lemma Not217()
    ensures !Period(217)
  {
    Reduced217(14);
    TopAll();
  }

  // ------------------------------------------------------- the order of x

  /** Periods are closed under differences, so under greatest common divisors. */
  lemma {:induction false} Common(a: nat, b: nat) returns (g: nat)
    requires a > 0 && b > 0 && Period(a) && Period(b)
    ensures g > 0 && Period(g) && a % g == 0 && b % g == 0
    decreases a + b
  {
    if a == b {
      g := a;
    } else if a > b {
      Difference(a, b);
      g := Common(a - b, b);
      SumDivides(a - b, b, g);
    } else {
      Difference(b, a);
      g := Common(a, b - a);
      SumDivides(b - a, a, g);
    }
  }

  lemma Difference(a: nat, b: nat)
    requires b < a && Period(a) && Period(b)
    ensures Period(a - b)
  {
    ShiftsAppend(a - b, b, Seed());
    ShiftsInjective(b, Shifts(a - b, Seed()), Seed());
  }

  lemma SumDivides(a: nat, b: nat, g: nat)
    requires g > 0 && a % g == 0 && b % g == 0
    ensures (a + b) % g == 0
  {
    var p, q := a / g, b / g;
    assert a == p * g && b == q * g;
    assert a + b == (p + q) * g;
    ModUnique(a + b, g, p + q, 0);
  }

  lemma {:induction false} Multiple(n: nat, k: nat)
    requires Period(n)
    ensures Period(n * k)
    decreases k
  {
    if k == 0 {
      assert n * k == 0;
    } else {
      Multiple(n, k - 1);
      assert n * k == n * (k - 1) + n;
      ShiftsAppend(n * (k - 1), n, Seed());
    }
  }

  predicate Prime(p: nat) { p > 1 && forall r :: 1 < r < p ==> p % r != 0 }

  lemma NotNegative(p: nat, x: int, n: nat)
    requires p > 0 && n == p * x
    ensures x >= 0
  {
    assert -x * p == -(p * x);
    if x < 0 { MulGe(-x, p); assert false; }
  }

  lemma Primes()
    ensures Prime(7) && Prime(31) && Prime(151)
  {
  }

  lemma Divides(p: nat, q: nat, n: nat)
    requires p > 0 && n == p * q
    ensures n % p == 0
  {
    ModUnique(n, p, q, 0);
  }

  /** A prime that divides a product divides a factor. */
  lemma {:induction false} Splits(p: nat, r: nat, k: nat)
    requires Prime(p) && 0 < r < p && (r * k) % p == 0
    ensures k % p == 0
    decreases r
  {
    if r > 1 {
      var s, q, m := p % r, p / r, r * k / p;
      assert p == q * r + s && r * k == p * m;
      assert s * k == p * k - q * (r * k) == p * k - q * (p * m) == p * (k - q * m);
      NotNegative(p, k - q * m, s * k);
      Divides(p, k - q * m, s * k);
      Splits(p, s, k);
    }
  }

  lemma SameFactor(p: nat, a: nat, b: nat)
    requires p > 0 && p * a == p * b
    ensures a == b
  {
    if a < b { MulGe(b - a, p); assert false; }
    if a > b { MulGe(a - b, p); assert false; }
  }

  /** A residue keeps what makes its number's product a multiple. */
  lemma Remains(p: nat, g: nat, k: nat, m: nat)
    requires p > 0 && g * k == p * m
    ensures (g % p * k) % p == 0
  {
    var t, r := g / p, g % p;
    assert g == p * t + r;
    assert (p * t + r) * k == p * (t * k) + r * k;
    assert r * k == p * (m - t * k);
    NotNegative(p, m - t * k, r * k);
    Divides(p, m - t * k, r * k);
  }

  /** If p is prime and does not divide g, then a multiple p * m of g makes m one. */
  lemma Cancels(p: nat, g: nat, m: nat)
    requires Prime(p) && g > 0 && (p * m) % g == 0 && g % p != 0
    ensures m % g == 0
  {
    var k, r := p * m / g, g % p;
    assert p * m == g * k;
    hide Prime;
    Remains(p, g, k, m);
    Splits(p, r, k);
    var q := k / p;
    assert p * m == g * (p * q) == p * (g * q);
    SameFactor(p, m, g * q);
    Divides(g, q, m);
  }

  lemma PeriodDivides(g: nat, m: nat)
    requires g > 0 && Period(g) && m % g == 0
    ensures Period(m)
  {
    Multiple(g, m / g);
    assert m == g * (m / g);
  }

  /** Coprime factors multiply: p * a divided by a prime q beyond p's residue r. */
  lemma NextPrime(p: nat, q: nat, g: nat, r: nat)
    requires p > 0 && Prime(q) && 0 < r < q && p % q == r
    requires g % p == 0 && g % q == 0
    ensures g % (p * q) == 0
  {
    hide Prime;
    var a := g / p;
    assert g == p * a && g == q * (g / q);
    Remains(q, p, a, g / q);
    Splits(q, r, a);
    Associated(p, q, a / q);
    Divides(p * q, a / q, g);
  }

  lemma Associated(p: nat, q: nat, c: nat)
    ensures p * (q * c) == (p * q) * c
  {
  }

  lemma AllFactors(g: nat)
    requires g > 0 && g % 7 == 0 && g % 31 == 0 && g % 151 == 0
    ensures g % 32767 == 0
  {
    hide Prime;
    Primes();
    NextPrime(7, 31, g, 7);
    NextPrime(217, 151, g, 66);
  }

  lemma Bigger(n: nat, g: nat)
    requires n > 0 && g > 0 && n % g == 0
    ensures n >= g
  {
  }

  /** The powers of x repeat after 32767 turns and not before. */
  lemma Order(n: nat)
    requires 0 < n < 32767
    ensures !Period(n)
  {
    if Period(n) {
      Full();
      var g := Common(n, 32767);
      Primes();
      if g % 7 != 0 { Cancels(7, g, 4681); PeriodDivides(g, 4681); Not4681(); assert false; }
      if g % 31 != 0 { Cancels(31, g, 1057); PeriodDivides(g, 1057); Not1057(); assert false; }
      if g % 151 != 0 { Cancels(151, g, 217); PeriodDivides(g, 217); Not217(); assert false; }
      AllFactors(g);
      Bigger(n, g);
      assert false;
    }
  }

  /** So they repeat exactly after the multiples of it. */
  lemma Periods(n: nat)
    ensures Period(n) <==> n % 32767 == 0
  {
    var q, r := n / 32767, n % 32767;
    Full();
    Multiple(32767, q);
    if Period(n) && r > 0 {
      if q > 0 { Difference(n, 32767 * q); }
      Order(r);
      assert false;
    }
  }

  // -------------------------------------------------------------- detection

  /** A single wrong bit. */
  function One(): Register { [true] + Zeros(15) }

  lemma SeedIsSum()
    ensures Seed() == Xor(Shift(One()), One())
  {
    assert One()[1..] + [false] == Zeros(16);
    var x := Xor(Shift(One()), One());
    forall i | 0 <= i < 16 ensures x[i] == Seed()[i] {
      assert Shift(One())[i] == Polynomial()[i];
    }
  }

  /** The polynomial has an odd number of terms besides the one shifted out, so turns keep the parity. */
  lemma {:induction false} ShiftsParity(n: nat, r: Register)
    ensures Parity(Shifts(n, r)) == Parity(r)
  {
    if n > 0 {
      ShiftParity(r, false);
      assert Mix(r, false) == r;
      ShiftsParity(n - 1, Shift(r));
    }
  }

  /** A register that a turn does not change has no bits or three. */
  lemma Fixed(d: Register)
    requires Shift(d) == d && !Parity(d)
    ensures d == Zeros(16)
  {
    forall i | 0 <= i < 16 ensures d[i] == (d[0] && (i == 0 || i >= 14)) { FixedBits(d, i); }
    if d[0] {
      assert d == [true] + Zeros(13) + [true, true];
      ParityAppend([true] + Zeros(13), [true, true]);
      ParityAppend([true], Zeros(13));
      ParityZeros(13);
      assert false;
    }
  }

  lemma {:induction false} FixedBits(d: Register, i: nat)
    requires Shift(d) == d && i < 16
    ensures d[i] == (d[0] && (i == 0 || i >= 14))
    decreases 16 - i
  {
    assert Shift(d)[i] == ((d[1..] + [false])[i] != (d[0] && Polynomial()[i]));
    if i < 15 { FixedBits(d, i + 1); }
  }

  /** Turning a single bit round gives it back exactly after the multiples of 32767 turns. */
  lemma BitReturns(n: nat)
    ensures Shifts(n, One()) == One() <==> n % 32767 == 0
  {
    var d := Xor(Shifts(n, One()), One());
    SeedIsSum();
    ShiftsLinear(n, Shift(One()), One());
    OneMore(n, One());
    ShiftLinear(Shifts(n, One()), One());
    Periods(n);
    if Shifts(n, One()) != One() && Period(n) {
      XorZero(Shifts(n, One()), One());
      Swapped(Shift(Shifts(n, One())), Shifts(n, One()), Shift(One()), One());
      ShiftsParity(n, One());
      ParityXor(Shifts(n, One()), One());
      Fixed(d);
      assert false;
    }
  }

  lemma OneMore(n: nat, r: Register)
    ensures Shifts(n, Shift(r)) == Shift(Shifts(n, r))
  {
    ShiftsAppend(1, n, r);
    ShiftsAppend(n, 1, r);
    assert Shifts(1, r) == Shift(r);
    assert Shifts(1, Shifts(n, r)) == Shift(Shifts(n, r));
  }

  lemma Swapped(a: Register, b: Register, c: Register, d: Register)
    requires Xor(a, b) == Xor(c, d)
    ensures Xor(a, c) == Xor(b, d)
  {
    forall i | 0 <= i < 16 ensures Xor(a, c)[i] == Xor(b, d)[i] {
      assert Xor(a, b)[i] == Xor(c, d)[i];
    }
  }

  lemma FeedTrue(r: Register)
    ensures Feed(r, [true]) == Shift(Xor(r, One()))
  {
    assert [true][1..] == [];
    assert Mix(r, true) == Xor(r, One());
  }

  lemma FeedPair(k: nat, n: nat, m: nat)
    requires n > 0
    ensures Feed(Zeros(16), Pair(k, n, m)) == Shifts(m, Shift(Xor(Shifts(n, One()), One())))
  {
    var z := Zeros(16);
    FeedAppend(z, Zeros(k) + [true] + Zeros(n - 1) + [true], Zeros(m));
    FeedAppend(z, Zeros(k) + [true] + Zeros(n - 1), [true]);
    FeedAppend(z, Zeros(k) + [true], Zeros(n - 1));
    FeedAppend(z, Zeros(k), [true]);
    FeedZeros(z, k);
    ShiftsZero(k);
    FeedTrue(z);
    assert Xor(z, One()) == One();
    FeedZeros(Shift(One()), n - 1);
    assert Shifts(n, One()) == Shifts(n - 1, Shift(One()));
    FeedTrue(Shifts(n, One()));
    FeedZeros(Shift(Xor(Shifts(n, One()), One())), m);
  }

  lemma PairRemains(k: nat, n: nat, l: nat)
    requires n > 0
    ensures Feed(Zeros(16), Pair(k, n, l)) == Zeros(16) <==> n % 32767 == 0
  {
    hide Shift, Feed, Pair, Xor;
    var x := Xor(Shifts(n, One()), One());
    FeedPair(k, n, l);
    BitReturns(n);
    XorZero(Shifts(n, One()), One());
    OneMore(l, x);
    ShiftsZero(l + 1);
    ShiftsInjective(l + 1, x, Zeros(16));
  }

  /**
   However long the message, two wrong bits go unnoticed exactly if they are a
   multiple of 32767 bits apart.
   */
  lemma PairExactly(m: seq<Byte>, m': seq<Byte>, i: nat, j: nat)
    requires |m| == |m'| && Checks(m)
    requires Differ(Bits(m), Bits(m'), i, j)
    ensures Checks(m') <==> (j - i) % 32767 == 0
  {
    hide Feed, Pair, Checks, Bits, Xor;
    DifferIsPair(Bits(m), Bits(m'), i, j);
    PairRemains(i, j - i, 8 * |m| - 1 - j);
    ErrorsAlone(m, m');
  }

  /** So no two wrong bits pass in a packet of up to 4095 bytes, CRC included. */
  lemma PairDetected(m: seq<Byte>, m': seq<Byte>)
    requires |m| == |m'| <= 4095 && Checks(m)
    requires Weight(Xor(Bits(m), Bits(m'))) == 2
    ensures !Checks(m')
  {
    hide Checks, Bits;
    var e := Xor(Bits(m), Bits(m'));
    var i, j := TwoBits(e);
    IsPair(e, i, j);
    DifferIsPair(Bits(m), Bits(m'), i, j);
    PairExactly(m, m', i, j);
  }
}
