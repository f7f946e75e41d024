/**
 The period of the MODBUS generator: idle shifting returns a register holding a single bit
 to itself after exactly the multiples of 32767 steps.  This is what decides which double
 bit errors the checksum can miss.

 Powers of x are reached by repeated squaring, which is linear over exclusive or; that no
 smaller number is a period follows from 32767 being 7 * 31 * 151.
 */
module Period {
  import opened BitSerial

  const PERIOD: nat := 32767

  /** The register that stands for the polynomial 1; `Shift` multiplies by x. */
  const ONE: bv16 := 0x8000

  /** The square of a register as a polynomial: the sum of the even powers it selects. */
  function Square(c: bv16): bv16 {
    ((0 - ((c >> 15) & 1)) & 0x8000) ^ ((0 - ((c >> 14) & 1)) & 0x2000) ^
    ((0 - ((c >> 13) & 1)) & 0x0800) ^ ((0 - ((c >> 12) & 1)) & 0x0200) ^
    ((0 - ((c >> 11) & 1)) & 0x0080) ^ ((0 - ((c >> 10) & 1)) & 0x0020) ^
    ((0 - ((c >> 9) & 1)) & 0x0008) ^ ((0 - ((c >> 8) & 1)) & 0x0002) ^
    ((0 - ((c >> 7) & 1)) & 0xA001) ^ ((0 - ((c >> 6) & 1)) & 0xD801) ^
    ((0 - ((c >> 5) & 1)) & 0xC601) ^ ((0 - ((c >> 4) & 1)) & 0xC181) ^
    ((0 - ((c >> 3) & 1)) & 0xC061) ^ ((0 - ((c >> 2) & 1)) & 0xC019) ^
    ((0 - ((c >> 1) & 1)) & 0xC007) ^ ((0 - ((c >> 0) & 1)) & 0x6001)
  }

  lemma SquareShift(c: bv16)
    ensures Square(Shift(c)) == Shift(Shift(Square(c)))
  {
  }

  lemma {:induction false} AdvanceDouble(n: nat)
    ensures Advance(ONE, 2 * n) == Square(Advance(ONE, n))
  {
    if n == 0 {
      assert Square(ONE) == ONE;
    } else {
      AdvanceDouble(n - 1);
      SquareShift(Advance(ONE, n - 1));
      assert Advance(ONE, 2 * n) == Shift(Advance(ONE, 2 * n - 1));
    }
  }

  lemma Double(n: nat, c: bv16, d: bv16)
    requires Advance(ONE, n) == c && Square(c) == d
    ensures Advance(ONE, 2 * n) == d
  {
    AdvanceDouble(n);
  }

  lemma DoublePlusOne(n: nat, c: bv16, d: bv16)
    requires Advance(ONE, n) == c && Shift(Square(c)) == d
    ensures Advance(ONE, 2 * n + 1) == d
  {
    AdvanceDouble(n);
  }

  lemma FirstPower()
    ensures Advance(ONE, 1) == 0x4000
  {
    assert Advance(ONE, 1) == Shift(Advance(ONE, 0));
  }

  /** 32767 steps are a period of the register ONE ... */
  lemma PowerPeriod()
    ensures Advance(ONE, PERIOD) == ONE
  {
    FirstPower();
    DoublePlusOne(1, 0x4000, 0x1000);
    DoublePlusOne(3, 0x1000, 0x0100);
    DoublePlusOne(7, 0x0100, 0x0001);
    DoublePlusOne(15, 0x0001, 0x9001);
    DoublePlusOne(31, 0x9001, 0xD101);
    DoublePlusOne(63, 0xD101, 0xC100);
    DoublePlusOne(127, 0xC100, 0x5001);
    DoublePlusOne(255, 0x5001, 0x8101);
    DoublePlusOne(511, 0x8101, 0xD000);
    DoublePlusOne(1023, 0xD000, 0x5100);
    DoublePlusOne(2047, 0x5100, 0x1101);
    DoublePlusOne(4095, 0x1101, 0x9100);
    DoublePlusOne(8191, 0x9100, 0x4101);
    DoublePlusOne(16383, 0x4101, 0x8000);
  }

  /** ... and dividing 32767 by any of its prime factors loses that. */
  lemma PowerPeriodBy7()
    ensures Advance(ONE, 4681) != ONE
  {
    FirstPower();
    Double(1, 0x4000, 0x2000);
    Double(2, 0x2000, 0x0800);
    DoublePlusOne(4, 0x0800, 0x0040);
    Double(9, 0x0040, 0xD801);
    Double(18, 0xD801, 0xC281);
    DoublePlusOne(36, 0xC281, 0x3004);
    Double(73, 0x3004, 0xCA19);
    Double(146, 0xCA19, 0xC169);
    DoublePlusOne(292, 0xC169, 0x0F31);
    Double(585, 0x0F31, 0x672B);
    Double(1170, 0x672B, 0x8E4C);
    DoublePlusOne(2340, 0x8E4C, 0x8C69);
  }

  lemma PowerPeriodBy31()
    ensures Advance(ONE, 1057) != ONE
  {
    FirstPower();
    Double(1, 0x4000, 0x2000);
    Double(2, 0x2000, 0x0800);
    Double(4, 0x0800, 0x0080);
    Double(8, 0x0080, 0xA001);
    DoublePlusOne(16, 0xA001, 0xD401);
    Double(33, 0xD401, 0xC221);
    Double(66, 0xC221, 0x0608);
    Double(132, 0x0608, 0xC049);
    Double(264, 0xC049, 0xD861);
    DoublePlusOne(528, 0xD861, 0xCE41);
  }

  lemma PowerPeriodBy151()
    ensures Advance(ONE, 217) != ONE
  {
    FirstPower();
    DoublePlusOne(1, 0x4000, 0x1000);
    Double(3, 0x1000, 0x0200);
    DoublePlusOne(6, 0x0200, 0x0004);
    DoublePlusOne(13, 0x0004, 0xC00D);
    Double(27, 0xC00D, 0xC079);
    Double(54, 0xC079, 0xDFE1);
    DoublePlusOne(108, 0xDFE1, 0x3E55);
  }

  // ---------------------------------------------------------------- which numbers are periods

  /** `n` idle steps bring the register ONE back to itself. */
  predicate IsPeriod(n: nat) {
    Advance(ONE, n) == ONE
  }

  lemma PeriodSum(m: nat, n: nat)
    requires IsPeriod(m)
    ensures IsPeriod(n) <==> IsPeriod(m + n)
  {
    AdvanceAdd(ONE, m, n);
  }

  lemma {:induction false} PeriodMultiple(m: nat, k: nat, n: nat)
    requires IsPeriod(m)
    ensures k * m >= 0
    ensures IsPeriod(n) <==> IsPeriod(k * m + n)
  {
    if k > 0 {
      PeriodMultiple(m, k - 1, n);
      PeriodSum(m, (k - 1) * m + n);
      assert k * m + n == m + ((k - 1) * m + n);
    }
  }

  ghost predicate IsPrime(p: nat) {
    p > 1 && forall q :: 1 < q < p ==> p % q != 0
  }

  /** Euclid's descent: two periods r * n and p * n with p prime make n itself a period. */
  lemma {:induction false} Descend(p: nat, r: nat, n: nat)
    requires IsPrime(p) && 0 < r < p
    requires IsPeriod(p * n) && IsPeriod(r * n)
    ensures IsPeriod(n)
    decreases r
  {
    if r > 1 {
      var q, s := p / r, p % r;
      Distribute(r, q, s, n, p);
      PeriodMultiple(r * n, q, s * n);
      Descend(p, s, n);
    }
  }

  lemma Distribute(a: nat, q: nat, r: nat, n: nat, d: nat)
    requires d == a * q + r
    ensures d * n == q * (a * n) + r * n
  {
    assert (a * q) * n == q * (a * n);
  }

  lemma FactorDivides(p: nat, n: nat, d: nat)
    requires IsPrime(p) && p * n == PERIOD
    requires !IsPeriod(n) && IsPeriod(PERIOD) && IsPeriod(d)
    ensures d % p == 0
  {
    var q, r := d / p, d % p;
    if r != 0 {
      Distribute(p, q, r, n, d);
      MultipleOfPeriod(d, n);
      PeriodMultiple(p * n, q, r * n);
      Descend(p, r, n);
    }
  }

  lemma MultipleOfPeriod(d: nat, n: nat)
    requires IsPeriod(d)
    ensures IsPeriod(d * n)
  {
    PeriodMultiple(d, n, 0);
    assert IsPeriod(0);
    assert n * d + 0 == d * n;
  }

  lemma Primes()
    ensures IsPrime(7) && IsPrime(31) && IsPrime(151)
  {
    forall q | 1 < q < 151
      ensures 151 % q != 0 && (q < 31 ==> 31 % q != 0) && (q < 7 ==> 7 % q != 0)
    {
      NoDivisor(q, 151);
      if q < 31 {
        NoDivisor(q, 31);
      }
      if q < 7 {
        NoDivisor(q, 7);
      }
    }
  }

  lemma NoSmallDivisor(q: nat, p: nat)
    requires 1 < q <= 12 && q < p && p in {7, 31, 151}
    ensures p % q != 0
  {
    match q
    case 2 => case 3 => case 4 => case 5 => case 6 => case 7 =>
    case 8 => case 9 => case 10 => case 11 => case _ =>
  }

  /** A divisor above 12 would leave a cofactor of at most 12. */
  lemma NoDivisor(q: nat, p: nat)
    requires 1 < q < p && p in {7, 31, 151}
    ensures p % q != 0
  {
    if q <= 12 {
      NoSmallDivisor(q, p);
    } else if p % q == 0 {
      var r := p / q;
      Cofactor(q, r, p);
      NoSmallDivisor(r, p);
    }
  }

  lemma Cofactor(q: nat, r: nat, p: nat)
    requires 12 < q < p < 169 && r == p / q && p % q == 0
    ensures 1 < r <= 12 && p % r == 0
  {
    assert p == q * r;
    if r > 12 {
      ProductAtLeast(q, r);
    }
    RemainderIsUnique(p, r, q, 0);
  }

  lemma ProductAtLeast(q: nat, r: nat)
    requires q > 12 && r > 12
    ensures q * r >= 169
  {
    assert q * r >= 13 * r;
  }

  lemma RemainderIsUnique(a: nat, r: nat, q: nat, s: nat)
    requires a == q * r + s && s < r
    ensures a % r == s
  {
    var k := a / r;
    assert a == k * r + a % r;
    if k > q {
      ProductMonotone(q + 1, k, r);
    } else if k < q {
      ProductMonotone(k + 1, q, r);
    }
  }

  lemma ProductMonotone(a: nat, b: nat, r: nat)
    requires a <= b
    ensures a * r <= b * r
  {
  }

  lemma DivisibleByAll(d: nat)
    requires d % 7 == 0 && d % 31 == 0 && d % 151 == 0
    ensures d % PERIOD == 0
  {
    var a, b, c := d / 7, d / 31, d / 151;
    CombineFactors(d, a, b, c, 9 * b - 2 * a);
  }

  lemma CombineFactors(d: nat, a: int, b: int, c: int, e: int)
    requires d == 7 * a && d == 31 * b && d == 151 * c && e == 9 * b - 2 * a
    ensures d % PERIOD == 0
  {
    assert d == 217 * e;
    assert e == 151 * (135 * c - 194 * e);
  }

  /** The periods are exactly the multiples of 32767. */
  lemma PeriodsAreMultiples(d: nat)
    ensures IsPeriod(d) <==> d % PERIOD == 0
  {
    PowerPeriod();
    if d % PERIOD == 0 {
      PeriodMultiple(PERIOD, d / PERIOD, 0);
      assert IsPeriod(0);
    } else if IsPeriod(d) {
      Primes();
      PowerPeriodBy7();
      PowerPeriodBy31();
      PowerPeriodBy151();
      FactorDivides(7, 4681, d);
      FactorDivides(31, 1057, d);
      FactorDivides(151, 217, d);
      DivisibleByAll(d);
    }
  }

  lemma FifteenthPower()
    ensures Advance(ONE, 15) == 1
  {
    FirstPower();
    DoublePlusOne(1, 0x4000, 0x1000);
    DoublePlusOne(3, 0x1000, 0x0100);
    DoublePlusOne(7, 0x0100, 0x0001);
  }

  /** The same for the register that holds the bit last fed. */
  lemma LastBitPeriod(d: nat)
    ensures Advance(1, d) == 1 <==> d % PERIOD == 0
  {
    FifteenthPower();
    AdvanceAdd(ONE, 15, d);
    AdvanceAdd(ONE, d, 15);
    if Advance(1, d) == 1 {
      AdvanceInjective(Advance(ONE, d), ONE, 15);
    }
    PeriodsAreMultiples(d);
  }
}
