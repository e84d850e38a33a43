/**
Integers on their way through float64 and back to text: rounding to the nearest double, and the
shortest decimal that reads back as the same double, padded with zeros, which is how
`encoding/json` prints a float64 that is an integer below 10^21.
*/
module Doubles {
  import opened Decimals

  const EXACT: nat := 0x20_0000_0000_0000  // 2^53
  const HALF: nat := 0x10_0000_0000_0000   // 2^52

  // ----- Reading: round to the nearest double -----

  /** The distance between neighbouring doubles around a magnitude, if that is at least 1. */
  function Ulp(m: nat): (u: nat)
    ensures u > 0
  {
    if m < EXACT then 1 else 2 * Ulp(m / 2)
  }

  /** The nearest multiple of `u`, the even one on a tie. */
  function RoundTo(m: nat, u: nat): (r: nat)
    requires u > 0
    ensures Multiple(r, u) && 2 * Abs(r - m) <= u
  {
    var lo := Floor(m, u);
    NextMultiple(lo, u);
    if 2 * (m - lo) > u || (2 * (m - lo) == u && !Multiple(lo, 2 * u)) then lo + u else lo
  }

  function RoundMagnitude(m: nat): nat {
    RoundTo(m, Ulp(m))
  }

  function ToDouble(n: int): int {
    if n < 0 then -(RoundMagnitude(-n) as int) else RoundMagnitude(n)
  }

  predicate Reads(m: nat, d: nat) {
    RoundMagnitude(m) == d
  }

  function ReadsAs(d: nat): nat -> bool {
    (m: nat) => Reads(m, d)
  }

  lemma RoundToMonotone(m: nat, n: nat, u: nat)
    requires m <= n && u > 0
    ensures RoundTo(m, u) <= RoundTo(n, u)
  {
    FloorMonotone(m, n, u);
    if Floor(m, u) < Floor(n, u) {
      Gap(Floor(m, u), Floor(n, u), u);
    }
  }

  /** Doubles with spacing `u` have 53 significant bits. */
  lemma {:induction false} UlpRange(m: nat)
    ensures m < EXACT * Ulp(m)
    ensures Ulp(m) > 1 ==> HALF * Ulp(m) <= m
  {
    if m >= EXACT {
      UlpRange(m / 2);
    }
  }

  lemma {:induction false} UlpMonotone(m: nat, n: nat)
    requires m <= n
    ensures Ulp(m) == Ulp(n) || 2 * Ulp(m) <= Ulp(n)
  {
    if m >= EXACT {
      UlpMonotone(m / 2, n / 2);
    }
  }

  /** Rounding does not cross the bounds of a binade. */
  lemma RoundInRange(m: nat)
    ensures RoundMagnitude(m) <= EXACT * Ulp(m)
    ensures Ulp(m) > 1 ==> HALF * Ulp(m) <= RoundMagnitude(m)
  {
    var u := Ulp(m);
    UlpRange(m);
    MultipleOf(EXACT, u);
    MultipleOf(HALF, u);
    FloorIsNearest(EXACT * u, m, u);
    FloorIsNearest(HALF * u, m, u);
  }

  lemma RoundMonotone(m: nat, n: nat)
    requires m <= n
    ensures RoundMagnitude(m) <= RoundMagnitude(n)
  {
    UlpMonotone(m, n);
    if Ulp(m) == Ulp(n) {
      RoundToMonotone(m, n, Ulp(m));
    } else {
      RoundInRange(m);
      RoundInRange(n);
    }
  }

  /** The numbers that read as one double are an interval around it. */
  lemma ReadsBetween(d: nat, m: nat, x: nat, n: nat)
    requires Reads(m, d) && Reads(n, d) && m <= x <= n
    ensures Reads(x, d)
  {
    RoundMonotone(m, x);
    RoundMonotone(x, n);
  }

  /** A tie goes to the even multiple of the spacing. */
  lemma RoundTiesToEven(m: nat)
    requires 2 * Abs(RoundMagnitude(m) - m) == Ulp(m)
    ensures Multiple(RoundMagnitude(m), 2 * Ulp(m))
  {
    OneIsEven(Floor(m, Ulp(m)), Ulp(m));
  }

  /** No double is nearer to a number than the one it reads as. */
  lemma RoundIsNearest(m: nat, x: nat)
    requires Reads(x, x)
    ensures Abs(RoundMagnitude(m) - m) <= Abs(x - m)
  {
    var u := Ulp(m);
    ReadsItselfExactly(x);
    UlpRange(m);
    UlpRange(x);
    MultipleOf(EXACT, u);
    FloorIsNearest(EXACT * u, m, u);
    if Ulp(x) == u {
      FloorIsNearest(x, m, u);
    } else if x < m {
      UlpMonotone(x, m);
      MultipleOf(HALF, u);
      FloorIsNearest(HALF * u, m, u);
    } else {
      UlpMonotone(m, x);
    }
  }

  lemma RoundAtLeastHalf(m: nat)
    ensures m <= 2 * RoundMagnitude(m)
  {
    UlpRange(m);
  }

  /** A number is a double exactly when it is below 2^53 or a multiple of the spacing around it. */
  lemma ReadsItselfExactly(m: nat)
    ensures Reads(m, m) <==> Multiple(m, Ulp(m))
  {
    if Multiple(m, Ulp(m)) {
      FloorIsNearest(m, m, Ulp(m));
    }
  }

  /** What is read is a double. */
  lemma RoundIsDouble(m: nat)
    ensures Reads(RoundMagnitude(m), RoundMagnitude(m))
  {
    var u, d := Ulp(m), RoundMagnitude(m);
    RoundInRange(m);
    if u == 1 {
      assert m < EXACT && d == m;
    } else {
      UlpNear(d, m);
      if d == EXACT * u {
        assert EXACT * u == HALF * (2 * u);
        MultipleOf(HALF, 2 * u);
      }
    }
    ReadsItselfExactly(d);
  }

  /** Within one binade the spacing is the same; its upper end has twice that. */
  lemma {:induction false} UlpNear(d: nat, m: nat)
    requires Ulp(m) > 1 && HALF * Ulp(m) <= d <= EXACT * Ulp(m)
    ensures Ulp(d) == if d == EXACT * Ulp(m) then 2 * Ulp(m) else Ulp(m)
  {
    if Ulp(m / 2) > 1 {
      UlpNear(d / 2, m / 2);
    } else if d == EXACT * 2 {
      assert Ulp(EXACT) == 2 * Ulp(HALF);
    }
  }

  // ----- Printing: the shortest decimal -----

  function PrintMagnitude(d: nat): nat {
    Print(ReadsAs(d), d, Digits(d))
  }

  function PrintDouble(d: int): int {
    if d < 0 then -(PrintMagnitude(-d) as int) else PrintMagnitude(d)
  }

  /** The integer comes back from float64 as it went in. */
  predicate Survives(n: int) {
    PrintDouble(ToDouble(n)) == n
  }

  lemma DoubleIsInterval(d: nat)
    requires Reads(d, d)
    ensures Interval(ReadsAs(d), d)
  {
    forall x: nat, y: nat, z: nat | x <= y <= z && Reads(x, d) && Reads(z, d)
      ensures Reads(y, d)
    {
      ReadsBetween(d, x, y, z);
    }
  }

  lemma TooCoarse(d: nat)
    ensures NoneAt(ReadsAs(d), Pow10(Digits(d) + 1))
  {
    var p := Pow10(Digits(d) + 1);
    DigitsBound(d);
    forall x: nat | x > 0 && Reads(x, d)
      ensures !Multiple(x, p)
    {
      RoundAtLeastHalf(x);
      if Multiple(x, p) { FloorIsNearest(x, 0, p); }
    }
  }

  /** What is printed for a double is its shortest decimal; in particular it reads back as that double. */
  lemma PrintedIsShortest(d: nat) returns (k: nat)
    requires Reads(d, d)
    ensures ShortestAt(ReadsAs(d), PrintMagnitude(d), d, k) && Reads(PrintMagnitude(d), d)
  {
    DoubleIsInterval(d);
    TooCoarse(d);
    k := PrintIsShortest(ReadsAs(d), d, Digits(d));
    assert ReadsAs(d)(PrintMagnitude(d));
  }

  lemma ReadsZero(m: nat)
    ensures Reads(m, 0) <==> m == 0
  {
    RoundAtLeastHalf(m);
  }

  // ----- Which integers survive -----

  lemma ZeroIsMultiple(d: nat, u: nat)
    requires d == 0 && u > 0
    ensures Multiple(d, u)
  {
  }

  lemma PrintZero(d: nat)
    requires d == 0 && Reads(d, d)
    ensures PrintMagnitude(d) == 0
  {
    hide Floor, Candidate, Print, Multiple, RoundTo;
    ZeroIsMultiple(d, Pow10(Digits(d)));
    PrintItself(ReadsAs(d), d, Digits(d));
  }

  lemma PrintNegative(d: nat)
    ensures PrintDouble(-(d as int)) == -(PrintMagnitude(d) as int)
  {
    hide Floor, Candidate, Print, Multiple, RoundTo;
    ReadsZero(d);
    if d == 0 { PrintZero(d); }
  }

  lemma SurvivesMagnitude(n: int)
    ensures Survives(n) <==> PrintMagnitude(RoundMagnitude(Abs(n))) == Abs(n)
  {
    if n < 0 {
      PrintNegative(RoundMagnitude(-n));
    }
  }

  /** An integer survives exactly when it is the shortest decimal of the double it reads as. */
  lemma SurvivesExactly(n: int)
    ensures
      var d := RoundMagnitude(Abs(n));
      Survives(n) <==> exists k :: ShortestAt(ReadsAs(d), Abs(n), d, k)
  {
    var m := Abs(n);
    var d := RoundMagnitude(m);
    SurvivesMagnitude(n);
    RoundIsDouble(m);
    DoubleIsInterval(d);
    var j := PrintedIsShortest(d);
    ReadsZero(m);
    ReadsZero(PrintMagnitude(d));
    if k :| ShortestAt(ReadsAs(d), m, d, k) {
      if m > 0 {
        ReadsZero(d);
        ShortestIsUnique(ReadsAs(d), PrintMagnitude(d), j, m, k, d);
      }
    }
  }

  /** Below 2^53 only the number itself reads as it. */
  lemma ReadsOnlyItself(x: nat, m: nat)
    requires m < EXACT && Reads(x, m)
    ensures x == m
  {
    ReadsItselfExactly(EXACT);
    assert Ulp(EXACT) == 2 * Ulp(HALF) == 2;
    if x >= EXACT {
      RoundMonotone(EXACT, x);
    } else {
      ReadsItselfExactly(x);
    }
  }

  lemma SpacingOverGrid(a: nat, p: nat, v: nat)
    requires HALF * v <= (a + 1) * p && a < 1_000_000_000_000_000 && p > 0
    ensures v < p
  {
    MulMonotone(a + 1, 1_000_000_000_000_000, p);
  }

  /** Neighbours on the grid of 15 significant digits never read as the same double. */
  lemma GridSeparates(a: nat, p: nat, x: nat)
    requires p > 0 && a < 1_000_000_000_000_000 && x == a * p
    ensures RoundMagnitude(x) != RoundMagnitude(x + p)
  {
    assert (a + 1) * p == x + p;
    UlpMonotone(x, x + p);
    UlpRange(x + p);
    if Ulp(x + p) > 1 {
      SpacingOverGrid(a, p, Ulp(x + p));
    } else {
      ReadsItselfExactly(x);
      ReadsItselfExactly(x + p);
    }
  }

  /** A 64-bit integer, signed or unsigned, survives when it has at most 15 significant digits. */
  lemma FifteenDigitsSurvive(a: nat, k: nat, n: int)
    requires Abs(n) < 0x1_0000_0000_0000_0000 && a < 1_000_000_000_000_000 && Abs(n) == a * Pow10(k)
    ensures Survives(n)
  {
    hide Floor, Candidate, Print, Multiple, RoundTo;
    var m := Abs(n);
    var d := RoundMagnitude(m);
    SurvivesMagnitude(n);
    ReadsZero(m);
    RoundIsDouble(m);
    if m == 0 {
      PrintZero(m);
    } else {
      MultipleOf(a, Pow10(k));
      var j := PrintedIsShortest(d);
      assert ReadsAs(d)(m);
      ShortestHasMostZeros(ReadsAs(d), PrintMagnitude(d), d, j, m, k);
      AloneOnGrid(d, m, PrintMagnitude(d), a, Pow10(k));
    }
  }

  lemma OneLess(a: nat, p: nat, m: nat)
    requires m == a * p && m >= p > 0
    ensures a > 0 && (a - 1) * p == m - p
  {
  }

  lemma AloneOnGrid(d: nat, m: nat, x: nat, a: nat, p: nat)
    requires Reads(m, d) && Reads(x, d) && Multiple(x, p) && m == a * p && a < 1_000_000_000_000_000
    ensures x == m
  {
    MultipleOf(a, p);
    if x > m {
      Gap(m, x, p);
      ReadsBetween(d, m, m + p, x);
      GridSeparates(a, p, m);
    } else if x < m {
      Gap(x, m, p);
      OneLess(a, p, m);
      ReadsBetween(d, x, m - p, m);
      GridSeparates(a - 1, p, m - p);
    }
  }

  lemma MagnitudeReadsBack(m: nat)
    ensures Reads(PrintMagnitude(m), m) <==> Reads(m, m)
  {
    hide PrintMagnitude, Floor, Candidate, Print, RoundTo;
    if Reads(m, m) {
      var k := PrintedIsShortest(m);
    } else {
      RoundIsDouble(PrintMagnitude(m));
    }
  }

  lemma ReadNegative(m: nat)
    ensures ToDouble(-(m as int)) == -(RoundMagnitude(m) as int)
  {
    hide RoundMagnitude;
    ReadsZero(m);
    if m == 0 { assert RoundMagnitude(m) == 0 by { ReadsZero(m); assert Reads(m, 0); } }
  }

  /** What is printed reads back as the same double; an integer that is no double never reads back. */
  lemma PrintReadsBackExactly(n: int)
    ensures ToDouble(PrintDouble(n)) == n <==> Reads(Abs(n), Abs(n))
  {
    hide PrintMagnitude, RoundMagnitude, ToDouble;
    var m := Abs(n);
    MagnitudeReadsBack(m);
    ReadNegative(PrintMagnitude(m));
    ReadPositive(PrintMagnitude(m));
    PrintNegative(m);
  }

  lemma ReadPositive(m: nat)
    ensures ToDouble(m) == RoundMagnitude(m)
  {
  }

  // ----- Evaluating printed forms -----

  function Pow2(e: nat): (p: nat)
    ensures p > 0
  {
    if e == 0 then 1 else 2 * Pow2(e - 1)
  }

  lemma {:induction false} UlpIs(m: nat, e: nat)
    requires HALF * Pow2(e) <= m < EXACT * Pow2(e)
    ensures Ulp(m) == Pow2(e)
  {
    if e > 0 {
      UlpIs(m / 2, e - 1);
    }
  }

  lemma RoundsDown(m: nat, u: nat, d: nat)
    requires Multiple(d, u) && d <= m < d + u && (2 * (m - d) < u || (2 * (m - d) == u && Multiple(d, 2 * u)))
    ensures RoundTo(m, u) == d
  {
    FloorIs(m, u, d);
  }

  lemma RoundsUp(m: nat, u: nat, lo: nat)
    requires Multiple(lo, u) && lo <= m < lo + u && (2 * (m - lo) > u || (2 * (m - lo) == u && !Multiple(lo, 2 * u)))
    ensures RoundTo(m, u) == lo + u
  {
    FloorIs(m, u, lo);
  }

  /** The double of a number, from the multiple of the spacing below it. */
  lemma RoundsTo(m: nat, e: nat, u: nat, lo: nat)
    requires u == Pow2(e) && HALF * u <= m < EXACT * u && lo % u == 0 && lo <= m < lo + u
    ensures 2 * (m - lo) < u || (2 * (m - lo) == u && lo % (2 * u) == 0) ==> RoundMagnitude(m) == lo
    ensures 2 * (m - lo) > u || (2 * (m - lo) == u && lo % (2 * u) != 0) ==> RoundMagnitude(m) == lo + u
  {
    UlpIs(m, e);
    if 2 * (m - lo) < u || (2 * (m - lo) == u && lo % (2 * u) == 0) {
      RoundsDown(m, u, lo);
    } else {
      RoundsUp(m, u, lo);
    }
  }

  lemma ZeroReads(d: nat)
    requires d > 0
    ensures !ReadsAs(d)(0)
  {
    ReadsZero(0);
  }

  /** Decides a printed form from the numbers around the double at two scales. */
  lemma PrintedForm(d: nat, k: nat, lo: nat, coarse: nat, m: nat)
    requires d > 0 && Reads(d, d)
    requires Multiple(lo, Pow10(k)) && lo <= d < lo + Pow10(k)
    requires Multiple(coarse, Pow10(k + 1)) && coarse <= d < coarse + Pow10(k + 1)
    requires !Reads(coarse, d) && !Reads(coarse + Pow10(k + 1), d)
    requires Reads(m, d) && ((m == lo && (lo == d || !Reads(lo + Pow10(k), d))) || (m == lo + Pow10(k) && !Reads(lo, d)))
    ensures PrintMagnitude(d) == m
  {
    hide Floor, Candidate, Print, Multiple, RoundTo;
    CandidateWhen(ReadsAs(d), d, Pow10(k), lo);
    CandidateWhen(ReadsAs(d), d, Pow10(k + 1), coarse);
    DoubleIsInterval(d);
    TooCoarse(d);
    ZeroReads(d);
    PrintsAs(ReadsAs(d), d, k, Digits(d));
  }

  /** 2^53 is the last of the integers that are all doubles, and survives as well. */
  lemma LimitSurvives(d: nat)
    requires d == EXACT
    ensures Reads(d, d) && PrintMagnitude(d) == d
  {
    hide Floor, Candidate, Print, RoundTo;
    assert Pow10(0) == 1 && Pow10(1) == 10;
    RoundsTo(d, 1, 2, d);
    RoundsTo(d + 8, 1, 2, d + 8);
    ReadsItselfExactly(d - 2);
    PrintedForm(d, 0, d, d - 2, d);
  }

  /** Every integer up to 2^53 in magnitude is a double and survives. */
  lemma ExactRange(n: int)
    requires Abs(n) <= EXACT
    ensures Survives(n) && ToDouble(n) == n
  {
    var m := Abs(n);
    SurvivesMagnitude(n);
    if m == EXACT {
      LimitSurvives(m);
    } else {
      ReadsItselfExactly(m);
      var k := PrintedIsShortest(m);
      ReadsOnlyItself(PrintMagnitude(m), m);
    }
  }

  /** 2^56 is a double, and yet it does not come back: its shortest decimal is another number. */
  lemma PowerOfTwoPrints(d: nat)
    requires d == 72057594037927936
    ensures ToDouble(d) == d && PrintDouble(d) == 72057594037927940
  {
    hide Floor, Candidate, Print, RoundTo;
    assert Pow10(1) == 10 && Pow10(2) == 100;
    RoundsTo(d, 4, 16, d);
    RoundsTo(d - 6, 3, 8, d - 8);
    RoundsTo(d + 4, 4, 16, d);
    RoundsTo(d - 36, 3, 8, d - 40);
    RoundsTo(d + 64, 4, 16, d + 64);
    PrintedForm(d, 1, d - 6, d - 36, d + 4);
  }

  /** 72057594037927940 is not a double, and yet it comes back. */
  lemma NonDoubleSurvives(n: nat)
    requires n == 72057594037927940
    ensures ToDouble(n) == n - 4 && Survives(n)
  {
    PowerOfTwoPrints(n - 4);
    RoundsTo(n, 4, 16, n - 4);
  }

  lemma AroundSmallestInt64(d: nat)
    requires d == 0x8000_0000_0000_0000
    ensures Reads(d, d) && Reads(d + 192, d) && !Reads(d - 808, d)
    ensures !Reads(d - 5808, d) && !Reads(d + 4192, d)
  {
    hide Floor, RoundTo, Ulp;
    RoundsTo(d, 11, 2048, d);
    RoundsTo(d - 808, 10, 1024, d - 1024);
    RoundsTo(d + 192, 11, 2048, d);
    RoundsTo(d - 5808, 10, 1024, d - 6144);
    RoundsTo(d + 4192, 11, 2048, d + 4096);
  }

  /** -2^63 is a double, but its shortest decimal is below every int64. */
  lemma SmallestInt64Prints(d: nat)
    requires d == 0x8000_0000_0000_0000
    ensures ToDouble(-(d as int)) == -(d as int) && PrintDouble(-(d as int)) == -9223372036854776000
  {
    hide Floor, Candidate, Print, RoundTo, RoundMagnitude;
    assert Pow10(3) == 1000 && Pow10(4) == 10000;
    AroundSmallestInt64(d);
    PrintedForm(d, 3, d - 808, d - 5808, d + 192);
  }

  /** 2^53 + 1 is the first integer that is not a double; it reads as its neighbour, which survives. */
  lemma AfterLimit(n: nat)
    requires n == EXACT + 1
    ensures ToDouble(n) == n - 1 && PrintDouble(n - 1) == n - 1
  {
    hide Floor, Candidate, Print, RoundTo, Ulp;
    RoundsTo(n, 1, 2, n - 1);
    LimitSurvives(n - 1);
  }
}
