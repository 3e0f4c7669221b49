/** Go's integer division and remainder, which truncate toward zero (Dafny's `/` and `%`
    are Euclidean and differ for a negative dividend). */
module GoInts {

  /** Go's `a / d` for a positive divisor: the quotient rounded toward zero, so that what
      is left over lies between 0 and d on the side of the dividend. */
  function TruncDiv(a: int, d: int): (q: int)
    requires d > 0
    ensures a >= 0 ==> 0 <= a - d * q < d
    ensures a <= 0 ==> 0 <= d * q - a < d
  {
    if a >= 0 then a / d else -((-a) / d)
  }

  /** Go's `a % n` for a positive divisor: n is taken away from (or added to) a until
      what is left is smaller than n in magnitude, so the result has the sign of a. */
  function TruncRem(a: int, n: int): (r: int)
    requires n > 0
    ensures -n < r < n
    ensures a >= 0 ==> r >= 0
    ensures a <= 0 ==> r <= 0
    ensures -n < a < n ==> r == a
    decreases if a >= 0 then a else -a
  {
    if a >= n then TruncRem(a - n, n)
    else if a <= -n then TruncRem(a + n, n)
    else a
  }

  /** Go's quotient of a negated dividend is the negated quotient. */
  lemma TruncDivOdd(a: int, d: int)
    requires d > 0
    ensures TruncDiv(-a, d) == -TruncDiv(a, d)
  {
  }

  /** For a non-negative dividend, adding the divisor leaves the remainder unchanged; with
      the identity below the divisor this determines Go's remainder on every natural. */
  lemma TruncRemPeriodic(a: nat, n: int)
    requires n > 0
    ensures TruncRem(a + n, n) == TruncRem(a, n)
  {
  }

  /** For a non-positive dividend, taking away the divisor leaves the remainder unchanged. */
  lemma TruncRemPeriodicNeg(a: int, n: int)
    requires n > 0 && a <= 0
    ensures TruncRem(a - n, n) == TruncRem(a, n)
  {
  }

  /** A quotient is fixed by the remainder bounds it leaves. */
  lemma QuotientUnique(a: int, n: int, q1: int, q2: int)
    requires n > 0
    requires 0 <= a - n * q1 < n && 0 <= a - n * q2 < n
    ensures q1 == q2
  {
    if q1 < q2 {
      assert n * q2 == n * q1 + n * (q2 - q1);
      MulAtLeast(n, q2 - q1);
    } else if q2 < q1 {
      assert n * q1 == n * q2 + n * (q1 - q2);
      MulAtLeast(n, q1 - q2);
    }
  }

  /** A positive multiple of n is at least n. */
  lemma {:induction false} MulAtLeast(n: int, k: int)
    requires n > 0 && k >= 1
    ensures n * k >= n
    decreases k
  {
    if k > 1 {
      MulAtLeast(n, k - 1);
      assert n * k == n * (k - 1) + n;
    }
  }

  /** Go's remainder of a negated dividend is the negated remainder. */
  lemma {:induction false} TruncRemOdd(a: int, n: int)
    requires n > 0
    ensures TruncRem(-a, n) == -TruncRem(a, n)
    decreases if a >= 0 then a else -a
  {
    if a >= n {
      TruncRemOdd(a - n, n);
    } else if a <= -n {
      TruncRemOdd(a + n, n);
    }
  }

  /** The identity below for a non-negative dividend. */
  lemma {:induction false} TruncDivRemNatural(a: nat, n: int)
    requires n > 0
    ensures a == n * TruncDiv(a, n) + TruncRem(a, n)
    decreases a
  {
    if a >= n {
      TruncDivRemNatural(a - n, n);
      var q := TruncDiv(a - n, n);
      assert n * (q + 1) == n * q + n;
      QuotientUnique(a, n, TruncDiv(a, n), q + 1);
    } else {
      QuotientUnique(a, n, TruncDiv(a, n), 0);
    }
  }

  /** Go's identity between `/` and `%`: a == n * (a / n) + a % n. */
  lemma TruncDivRem(a: int, n: int)
    requires n > 0
    ensures a == n * TruncDiv(a, n) + TruncRem(a, n)
  {
    if a >= 0 {
      TruncDivRemNatural(a, n);
    } else {
      TruncDivRemNatural(-a, n);
      TruncDivOdd(-a, n);
      TruncRemOdd(-a, n);
      Negated(-a, n, TruncDiv(-a, n), TruncRem(-a, n));
    }
  }

  /** Negating both sides of a division identity. */
  lemma Negated(b: int, n: int, q: int, r: int)
    requires b == n * q + r
    ensures -b == n * -q + -r
  {
  }
}
