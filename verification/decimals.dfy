/**
The shortest decimal of a number, given which integers read as that number: the one with the most
zeros at its end, of those the nearest, on a tie the one with the even last digit.
*/
module Decimals {
  import opened Wrappers

  function Abs(n: int): nat {
    if n < 0 then -n else n
  }

  // ----- Multiples -----

  lemma MulMonotone(a: nat, b: nat, u: nat)
    requires a <= b
    ensures a * u <= b * u
  {
  }

  lemma QuotientIs(q: nat, r: nat, u: nat)
    requires r < u
    ensures (q * u + r) / u == q && (q * u + r) % u == r
  {
    var x := q * u + r;
    var a := x / u;
    assert x == a * u + x % u;
    assert (a + 1) * u == a * u + u && (q + 1) * u == q * u + u;
    if a < q {
      MulMonotone(a + 1, q, u);
    } else if a > q {
      MulMonotone(q + 1, a, u);
    }
  }

  predicate Multiple(x: nat, u: nat) {
    u > 0 && x % u == 0
  }

  lemma MultipleOf(q: nat, u: nat)
    requires u > 0
    ensures Multiple(q * u, u) && q * u / u == q
  {
    QuotientIs(q, 0, u);
  }

  lemma NextMultiple(x: nat, u: nat)
    requires Multiple(x, u)
    ensures Multiple(x + u, u)
  {
    assert x == x / u * u;
    assert (x / u + 1) * u == x / u * u + u;
    MultipleOf(x / u + 1, u);
  }

  lemma Regroup(h: nat, p: nat)
    ensures (2 * h) * p == h * (2 * p) && (2 * h + 1) * p == h * (2 * p) + p
  {
  }

  /** Of two neighbouring multiples one is even. */
  lemma OneIsEven(lo: nat, p: nat)
    requires Multiple(lo, p)
    ensures Multiple(lo, 2 * p) || Multiple(lo + p, 2 * p)
  {
    var q := lo / p;
    assert lo == q * p;
    Regroup(q / 2, p);
    MultipleOf(q / 2, 2 * p);
    if q % 2 == 1 {
      NextMultiple(q / 2 * (2 * p), 2 * p);
    }
  }

  lemma Gap(x: nat, y: nat, u: nat)
    requires Multiple(x, u) && Multiple(y, u) && x < y
    ensures x + u <= y
  {
    assert x == x / u * u && y == y / u * u;
    if x / u >= y / u {
      MulMonotone(y / u, x / u, u);
    }
    MulMonotone(x / u + 1, y / u, u);
    assert (x / u + 1) * u == x / u * u + u;
  }

  /** The largest multiple of `u` that is not above `m`. */
  function Floor(m: nat, u: nat): (lo: nat)
    requires u > 0
    ensures lo <= m < lo + u && Multiple(lo, u)
  {
    assert m == m / u * u + m % u;
    assert m / u * u >= 0 by { MulMonotone(0, m / u, u); }
    MultipleOf(m / u, u);
    m - m % u
  }

  lemma FloorMonotone(m: nat, n: nat, u: nat)
    requires m <= n && u > 0
    ensures Floor(m, u) <= Floor(n, u)
  {
    if Floor(m, u) > Floor(n, u) {
      Gap(Floor(n, u), Floor(m, u), u);
    }
  }

  /** No multiple lies strictly between the floor and the next one. */
  lemma FloorIsNearest(x: nat, m: nat, u: nat)
    requires Multiple(x, u)
    ensures x <= m ==> x <= Floor(m, u)
    ensures x > m ==> x >= Floor(m, u) + u
  {
    if x <= m && x > Floor(m, u) {
      Gap(Floor(m, u), x, u);
    } else if x > m {
      Gap(Floor(m, u), x, u);
    }
  }

  /** The floor at a scale, from a number that a reader can check. */
  lemma FloorIs(d: nat, p: nat, lo: nat)
    requires p > 0 && lo % p == 0 && lo <= d < lo + p
    ensures Floor(d, p) == lo
  {
    FloorIsNearest(lo, d, p);
    if lo < Floor(d, p) {
      Gap(lo, Floor(d, p), p);
    }
  }

  // ----- Decimals -----

  function Pow10(k: nat): (p: nat)
    ensures p > 0
  {
    if k == 0 then 1 else 10 * Pow10(k - 1)
  }

  function Digits(d: nat): nat {
    if d < 10 then 1 else 1 + Digits(d / 10)
  }

  lemma {:induction false} DigitsBound(d: nat)
    ensures d < Pow10(Digits(d))
  {
    if d >= 10 {
      DigitsBound(d / 10);
    }
  }

  lemma {:induction false} FinerDivides(x: nat, j: nat, k: nat)
    requires j <= k && Multiple(x, Pow10(k))
    ensures Multiple(x, Pow10(j))
  {
    if j < k {
      var q, p := x / Pow10(k), Pow10(k - 1);
      assert x == q * (10 * p);
      assert q * (10 * p) == (10 * q) * p;
      MultipleOf(10 * q, p);
      FinerDivides(x, j, k - 1);
    }
  }

  /** Of the two multiples of `p` around `d` the one that reads; of both the nearer; of equally near ones the even. */
  function Candidate(fits: nat -> bool, d: nat, p: nat): Option<nat>
    requires p > 0
  {
    var lo := Floor(d, p);
    if fits(lo) && !(fits(lo + p) && (2 * (d - lo) > p || (2 * (d - lo) == p && !Multiple(lo, 2 * p)))) then Some(lo)
    else if fits(lo + p) then Some(lo + p)
    else None
  }

  /** As many zeros at the end as possible, at most `k`. */
  function Print(fits: nat -> bool, d: nat, k: nat): nat {
    match Candidate(fits, d, Pow10(k))
    case Some(m) => m
    case None => if k == 0 then d else Print(fits, d, k - 1)
  }

  // ----- What is printed -----

  /** The number reads as itself, and what reads as it is an interval around it. */
  ghost predicate Interval(fits: nat -> bool, d: nat) {
    fits(d) && forall x: nat, y: nat, z: nat | x <= y <= z && fits(x) && fits(z) :: fits(y)
  }

  predicate Better(m: nat, x: nat, d: nat, p: nat)
    requires p > 0
  {
    Abs(m - d) < Abs(x - d) || (Abs(m - d) == Abs(x - d) && Multiple(m, 2 * p))
  }

  ghost predicate NoneAt(fits: nat -> bool, p: nat) {
    forall x: nat | x > 0 && fits(x) :: !Multiple(x, p)
  }

  /**
  `m` is the decimal for `d` with the fewest digits: it ends in `k` zeros, no decimal that reads as
  `d` ends in more, and it is better than every other one that ends in as many.
  */
  ghost predicate ShortestAt(fits: nat -> bool, m: nat, d: nat, k: nat) {
    && fits(m) && Multiple(m, Pow10(k)) && NoneAt(fits, Pow10(k + 1))
    && forall x: nat | fits(x) && Multiple(x, Pow10(k)) && x != m :: Better(m, x, d, Pow10(k))
  }

  /** The candidate beats every multiple that reads as the number. */
  lemma CandidateIsBest(fits: nat -> bool, d: nat, p: nat, x: nat)
    requires Interval(fits, d) && fits(x) && Multiple(x, p)
    ensures Candidate(fits, d, p).Some?
    ensures x != Candidate(fits, d, p).value ==> Better(Candidate(fits, d, p).value, x, d, p)
  {
    var lo := Floor(d, p);
    FloorIsNearest(x, d, p);
    OneIsEven(lo, p);
    if x <= d {
      assert x <= lo <= d && fits(lo);
    } else {
      assert d <= lo + p <= x && fits(lo + p);
    }
  }

  lemma CandidateReads(fits: nat -> bool, d: nat, p: nat)
    requires p > 0 && Candidate(fits, d, p).Some?
    ensures fits(Candidate(fits, d, p).value) && Multiple(Candidate(fits, d, p).value, p)
  {
    NextMultiple(Floor(d, p), p);
  }

  lemma CandidateIsShortest(fits: nat -> bool, d: nat, k: nat)
    requires Interval(fits, d) && Candidate(fits, d, Pow10(k)).Some? && NoneAt(fits, Pow10(k + 1))
    ensures ShortestAt(fits, Candidate(fits, d, Pow10(k)).value, d, k)
  {
    CandidateReads(fits, d, Pow10(k));
    var m := Candidate(fits, d, Pow10(k)).value;
    forall x: nat | fits(x) && Multiple(x, Pow10(k)) && x != m
      ensures Better(m, x, d, Pow10(k))
    {
      CandidateIsBest(fits, d, Pow10(k), x);
    }
  }

  lemma NoCandidate(fits: nat -> bool, d: nat, p: nat)
    requires p > 0 && Interval(fits, d) && Candidate(fits, d, p).None?
    ensures NoneAt(fits, p)
  {
    forall x: nat | x > 0 && fits(x)
      ensures !Multiple(x, p)
    {
      if Multiple(x, p) { CandidateIsBest(fits, d, p, x); }
    }
  }

  /** Among all integers that read as the number there is a candidate: the number itself. */
  lemma UnitCandidate(fits: nat -> bool, d: nat)
    requires Interval(fits, d)
    ensures Candidate(fits, d, 1) == Some(d)
  {
    FloorIs(d, 1, d);
  }

  lemma {:induction false} PrintIsShortest(fits: nat -> bool, d: nat, k: nat) returns (j: nat)
    requires Interval(fits, d) && NoneAt(fits, Pow10(k + 1))
    ensures ShortestAt(fits, Print(fits, d, k), d, j)
  {
    if Candidate(fits, d, Pow10(k)).Some? {
      CandidateIsShortest(fits, d, k);
      j := k;
    } else {
      NoCandidate(fits, d, Pow10(k));
      UnitCandidate(fits, d);
      j := PrintIsShortest(fits, d, k - 1);
    }
  }

  /** The shortest decimal of a number is unique. */
  lemma ShortestIsUnique(fits: nat -> bool, m: nat, j: nat, n: nat, k: nat, d: nat)
    requires Interval(fits, d) && ShortestAt(fits, m, d, j) && ShortestAt(fits, n, d, k) && m > 0 && n > 0
    ensures m == n
  {
    if j > k { FinerDivides(m, k + 1, j); }
    if k > j { FinerDivides(n, j + 1, k); }
    if m < n { UniqueBelow(fits, m, n, k, d); }
    if n < m { UniqueBelow(fits, n, m, k, d); }
  }

  lemma UniqueBelow(fits: nat -> bool, m: nat, n: nat, k: nat, d: nat)
    requires Interval(fits, d) && ShortestAt(fits, m, d, k) && ShortestAt(fits, n, d, k)
    ensures m >= n
  {
    if m < n {
      var p := Pow10(k);
      assert Better(m, n, d, p) && Better(n, m, d, p);
      NextMultiple(m, p);
      Gap(m, n, 2 * p);
    }
  }

  /** No decimal that reads as the number ends in more zeros than the shortest one. */
  lemma ShortestHasMostZeros(fits: nat -> bool, m: nat, d: nat, j: nat, x: nat, k: nat)
    requires ShortestAt(fits, m, d, j) && x > 0 && fits(x) && Multiple(x, Pow10(k))
    ensures k <= j && Multiple(m, Pow10(k))
  {
    if k > j {
      FinerDivides(x, j + 1, k);
    } else {
      FinerDivides(m, k, j);
    }
  }

  lemma CandidateWhen(fits: nat -> bool, d: nat, p: nat, lo: nat)
    requires Multiple(lo, p) && lo <= d < lo + p
    ensures !fits(lo) && !fits(lo + p) ==> Candidate(fits, d, p).None?
    ensures fits(lo) && !fits(lo + p) ==> Candidate(fits, d, p) == Some(lo)
    ensures !fits(lo) && fits(lo + p) ==> Candidate(fits, d, p) == Some(lo + p)
    ensures fits(lo) && lo == d ==> Candidate(fits, d, p) == Some(lo)
  {
    FloorIs(d, p, lo);
  }

  lemma PrintItself(fits: nat -> bool, d: nat, k: nat)
    requires fits(d) && Multiple(d, Pow10(k))
    ensures Print(fits, d, k) == d
  {
    CandidateWhen(fits, d, Pow10(k), d);
  }

  /** Decides what is printed from the candidates at one scale and at the next coarser one. */
  lemma PrintsAs(fits: nat -> bool, d: nat, k: nat, top: nat)
    requires Interval(fits, d) && !fits(0) && NoneAt(fits, Pow10(top + 1))
    requires Candidate(fits, d, Pow10(k)).Some? && Candidate(fits, d, Pow10(k + 1)).None?
    ensures Print(fits, d, top) == Candidate(fits, d, Pow10(k)).value
  {
    NoCandidate(fits, d, Pow10(k + 1));
    CandidateIsShortest(fits, d, k);
    var j := PrintIsShortest(fits, d, top);
    ShortestIsUnique(fits, Print(fits, d, top), j, Candidate(fits, d, Pow10(k)).value, k, d);
  }
}
