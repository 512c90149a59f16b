/** The prime search that sizes the bucket array of the hash table (lib/common.h). */
module Primes {
  import opened Arithmetic

  const INT_MAX := 0x7fff_ffff

  /** 46337 * 46337: 46337 is the last trial divisor whose square fits in a 32-bit int. */
  const TRIAL_LIMIT := 2147117569

  predicate Divides(d: int, n: int)
    requires d > 0
  {
    n % d == 0
  }

  ghost predicate IsPrime(n: int) {
    2 <= n && forall d :: 2 <= d < n ==> !Divides(d, n)
  }

  /** p is the least prime greater than n. */
  ghost predicate IsNextPrime(n: int, p: int) {
    n < p && IsPrime(p) && forall q :: n < q < p ==> !IsPrime(q)
  }

  // ----- divisibility

  lemma DividesByFactor(d: int, k: int)
    requires d > 0
    ensures Divides(d, d * k)
  {
    DivisionIsUnique(d * k, d, k, 0);
  }

  lemma DividesTransitive(p: int, d: int, n: int)
    requires p > 0 && d > 0 && n >= 0 && Divides(p, d) && Divides(d, n)
    ensures Divides(p, n)
  {
    var a, b := d / p, n / d;
    assert n == p * (a * b) by {
      assert d == p * a && n == d * b;
      assert (p * a) * b == p * (a * b);
    }
    DividesByFactor(p, a * b);
  }

  /** The cofactor of a divisor at or above i is a divisor below i, once i * i exceeds n. */
  lemma CofactorIsSmall(i: int, d: int, n: int)
    requires 2 <= i <= d < n < i * i && Divides(d, n)
    ensures 2 <= n / d < i && Divides(n / d, n)
  {
    var k := n / d;
    assert n == d * k;
    FactorBelow(i, d, k);
    FactorAbove(d, k);
    DividesByFactor(k, d);
    assert k * d == n;
  }

  lemma FactorBelow(i: int, d: int, k: int)
    requires 0 < i <= d && d * k < i * i
    ensures k < i
  {
    if k >= i { Grows(i, i, d, k); }
  }

  lemma FactorAbove(d: int, k: int)
    requires 0 < d < d * k
    ensures k >= 2
  {
  }

  /** Trial division up to the square root is enough. */
  lemma NoSmallDivisorMeansPrime(i: int, n: int)
    requires 2 <= n < i * i && 2 <= i
    requires forall d :: 2 <= d < i && d < n ==> !Divides(d, n)
    ensures IsPrime(n)
  {
    forall d | 2 <= d < n
      ensures !Divides(d, n)
    {
      if i <= d && Divides(d, n) {
        CofactorIsSmall(i, d, n);
      }
    }
  }

  lemma MultipleDoesNotDivide(p: int, d: int, n: int)
    requires p > 0 && d > 0 && n >= 0 && Divides(p, d) && !Divides(p, n)
    ensures !Divides(d, n)
  {
    if Divides(d, n) { DividesTransitive(p, d, n); }
  }

  /** Between two candidates i, i + 2 and the next pair, every number is a multiple of 2 or 3. */
  lemma SixStepsCovered(i: int, n: int)
    requires 5 <= i && i % 6 == 5
    requires n >= 0 && !Divides(2, n) && !Divides(3, n) && !Divides(i, n) && !Divides(i + 2, n)
    ensures forall d :: i <= d < i + 6 ==> !Divides(d, n)
  {
    forall d | i <= d < i + 6 && d != i && d != i + 2
      ensures !Divides(d, n)
    {
      SkippedCandidate(i, d, n);
    }
  }

  lemma SkippedCandidate(i: int, d: int, n: int)
    requires 5 <= i && i % 6 == 5 && i < d < i + 6 && d != i + 2
    requires n >= 0 && !Divides(2, n) && !Divides(3, n)
    ensures !Divides(d, n)
  {
    BetweenCandidates(i);
    MultipleDoesNotDivide(if d == i + 4 then 3 else 2, d, n);
  }

  lemma BetweenCandidates(i: int)
    requires i % 6 == 5
    ensures Divides(2, i + 1) && Divides(2, i + 3) && Divides(3, i + 4) && Divides(2, i + 5)
  {
    var q := i / 6;
    assert i == 6 * q + 5;
    DividesByFactor(2, 3 * q + 3);
    DividesByFactor(2, 3 * q + 4);
    DividesByFactor(3, 2 * q + 3);
    DividesByFactor(2, 3 * q + 5);
  }

  // ----- there is always a larger prime (Euclid)

  ghost function Factorial(n: nat): (f: nat)
    ensures f >= 1
  {
    if n == 0 then 1 else MulPositive(n, Factorial(n - 1)); n * Factorial(n - 1)
  }

  lemma MulPositive(a: int, b: int)
    requires a >= 1 && b >= 1
    ensures a * b >= 1
  {
  }

  lemma {:induction false} FactorialDivides(d: int, n: nat)
    requires 1 <= d <= n
    ensures Divides(d, Factorial(n))
  {
    if d == n {
      DividesByFactor(d, Factorial(n - 1));
    } else {
      FactorialDivides(d, n - 1);
      DividesByFactor(Factorial(n - 1), n);
      assert n * Factorial(n - 1) == Factorial(n - 1) * n;
      DividesTransitive(d, Factorial(n - 1), Factorial(n));
    }
  }

  lemma {:induction false} PrimeDivisor(m: int, from: int) returns (p: int)
    requires 2 <= from <= m
    requires forall d :: 2 <= d < from ==> !Divides(d, m)
    ensures IsPrime(p) && Divides(p, m)
    decreases m - from
  {
    if Divides(from, m) {
      p := from;
      LeastDivisorIsPrime(p, m);
    } else {
      p := PrimeDivisor(m, from + 1);
    }
  }

  lemma LeastDivisorIsPrime(p: int, m: int)
    requires 2 <= p <= m && Divides(p, m) && forall d :: 2 <= d < p ==> !Divides(d, m)
    ensures IsPrime(p)
  {
    forall d | 2 <= d < p
      ensures !Divides(d, p)
    {
      assert !Divides(d, m);
      NotTransitive(d, p, m);
    }
  }

  lemma NotTransitive(d: int, p: int, m: int)
    requires d > 0 && p > 0 && m >= 0 && Divides(p, m) && !Divides(d, m)
    ensures !Divides(d, p)
  {
    if Divides(d, p) { DividesTransitive(d, p, m); }
  }

  lemma AlwaysAnotherPrime(n: int) returns (p: int)
    ensures n < p && IsPrime(p)
  {
    var k := if n < 2 then 2 else n;
    var f := Factorial(k);
    FactorialDivides(2, k);
    assert f >= 2;
    p := PrimeDivisor(f + 1, 2);
    if p <= k {
      FactorialDivides(p, k);
      assert (f + 1) % p == 0 && f % p == 0;
      NoCommonDivisor(p, f);
    }
  }

  lemma NoCommonDivisor(p: int, f: int)
    requires 2 <= p && f % p == 0
    ensures (f + 1) % p != 0
  {
    DivisionIsUnique(f + 1, p, f / p, 1);
  }

  // ----- the two loops

  /** The loop of is_prime, with the last candidate whose square it computed. */
  method TestCandidates(n: int) returns (prime: bool, ghost i: int)
    requires n > 3 && !Divides(2, n) && !Divides(3, n)
    ensures prime == IsPrime(n)
    ensures 5 <= i && i % 6 == 5 && (i == 5 || (i - 6) * (i - 6) <= n)
    ensures prime <==> n < i * i
  {
    FourIsCovered(n);
    var c := 5;
    while c * c <= n
      invariant 5 <= c && c % 6 == 5
      invariant c == 5 || (c - 6) * (c - 6) <= n
      invariant forall d :: 2 <= d < c ==> !Divides(d, n)
      decreases n - c
    {
      CandidateIsBelow(c, n);
      if n % c == 0 || n % (c + 2) == 0 {
        RefutedByCandidate(c, n);
        return false, c;
      }
      CandidatesCovered(c, n);
      c := c + 6;
    }
    NoSmallDivisorMeansPrime(c, n);
    return true, c;
  }

  /** is_prime. `widest` is the largest product i * i the loop computes: in 32-bit arithmetic every
      product is representable exactly when the number is not a prime at or above TRIAL_LIMIT. */
  method TrialDivision(n: int) returns (prime: bool, ghost widest: int)
    ensures prime == IsPrime(n)
    ensures n <= INT_MAX && !(prime && n >= TRIAL_LIMIT) ==> widest <= INT_MAX
    ensures prime && n >= TRIAL_LIMIT ==> widest > INT_MAX
  {
    widest := 0;
    if n <= 1 { return false, widest; }
    if n <= 3 {
      assert n == 3 ==> !Divides(2, 3);
      return true, widest;
    }
    if n % 2 == 0 || n % 3 == 0 {
      assert Divides(2, n) || Divides(3, n);
      return false, widest;
    }
    ghost var i: int;
    prime, i := TestCandidates(n);
    widest := i * i;
    if prime { SquareOfLastCandidate(i, n); }
  }

  lemma CandidatesCovered(i: int, n: int)
    requires 5 <= i && i % 6 == 5
    requires !Divides(2, n) && !Divides(3, n) && !Divides(i, n) && !Divides(i + 2, n)
    requires n >= 0 && forall d :: 2 <= d < i ==> !Divides(d, n)
    ensures (i + 6) % 6 == 5 && forall d :: 2 <= d < i + 6 ==> !Divides(d, n)
  {
    SixStepsCovered(i, n);
  }

  lemma FourIsCovered(n: int)
    requires n > 3 && !Divides(2, n) && !Divides(3, n)
    ensures forall d :: 2 <= d < 5 ==> !Divides(d, n)
  {
  }

  lemma CandidateIsBelow(i: int, n: int)
    requires 5 <= i && i * i <= n
    ensures i + 2 < n && n - i >= 6
  {
  }

  lemma RefutedByCandidate(i: int, n: int)
    requires 5 <= i && i + 2 < n && (n % i == 0 || n % (i + 2) == 0)
    ensures !IsPrime(n)
  {
    assert Divides(i, n) || Divides(i + 2, n);
  }

  /** The last square computed fits in 32 bits exactly below TRIAL_LIMIT. */
  lemma SquareOfLastCandidate(i: int, n: int)
    requires 5 <= i && i % 6 == 5 && n < i * i
    requires i == 5 || (i - 6) * (i - 6) <= n
    ensures i * i <= INT_MAX <==> n < TRIAL_LIMIT
  {
    if i <= 46337 {
      Grows(i, i, 46337, 46337);
    } else {
      Grows(46337, 46337, i - 6, i - 6);
      Grows(46343, 46343, i, i);
    }
  }

  /** next_prime: the least prime above n, for every n; the search stops because a larger prime exists.
      For a 32-bit n all products fit in 32 bits exactly when the answer is below TRIAL_LIMIT. */
  method NextPrime(n: int) returns (p: int, ghost widest: int)
    ensures IsNextPrime(n, p)
    ensures n <= INT_MAX ==> (widest <= INT_MAX <==> p < TRIAL_LIMIT)
  {
    widest := 0;
    if n <= 1 {
      return 2, widest;
    }
    ghost var bound := AlwaysAnotherPrime(n);
    p := n;
    var found := false;
    while !found
      invariant n <= p <= bound
      invariant forall q :: n < q < p ==> !IsPrime(q)
      invariant found ==> n < p && IsPrime(p)
      invariant !found ==> p == n || !IsPrime(p)
      invariant found && p >= TRIAL_LIMIT ==> widest > INT_MAX
      invariant p <= INT_MAX && !(found && p >= TRIAL_LIMIT) ==> widest <= INT_MAX
      decreases bound - p, !found
    {
      p := p + 1;
      ghost var w;
      found, w := TrialDivision(p);
      widest := if w > widest then w else widest;
    }
  }
}
