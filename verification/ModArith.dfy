/** Modular exponentiation, as the big-integer library's `Exp(x, y, m)` computes it. */
module ModArith {

  function Pow(b: int, e: nat): int
  {
    if e == 0 then 1 else b * Pow(b, e - 1)
  }

  function ModExp(b: int, e: nat, n: int): int
    requires n > 0
  {
    Pow(b, e) % n
  }

  ghost predicate Congruent(a: int, b: int, n: int)
    requires n > 0
  {
    a % n == b % n
  }

  lemma ScalesUp(k: int, n: int)
    requires n > 0
    ensures k >= 1 ==> k * n >= n
    ensures k <= -1 ==> k * n <= -n
  {
  }

  lemma MultipleInRangeIsZero(k: int, n: int)
    requires n > 0 && -n < k * n < n
    ensures k == 0
  {
  }

  lemma RemainderIsUnique(x: int, q: int, r: int, n: int)
    requires 0 <= r < n
    requires x == q * n + r
    ensures x % n == r
  {
    var k := x / n - q;
    assert k * n == r - x % n;
    MultipleInRangeIsZero(k, n);
  }

  /** Congruence means differing by a multiple of the modulus. */
  lemma CongruentByMultiple(a: int, b: int, q: int, n: int)
    requires n > 0
    requires a == b + q * n
    ensures Congruent(a, b, n)
  {
    var p := q + b / n;
    assert a == p * n + b % n by {
      assert b == (b / n) * n + b % n;
      assert p * n == q * n + (b / n) * n;
    }
    RemainderIsUnique(a, p, b % n, n);
  }

  lemma CongruentGap(a: int, b: int, n: int) returns (q: int)
    requires n > 0 && Congruent(a, b, n)
    ensures a == b + q * n
  {
    q := a / n - b / n;
    assert q * n == (a / n) * n - (b / n) * n;
  }

  lemma ModIsCongruent(a: int, n: int)
    requires n > 0
    ensures Congruent(a % n, a, n)
  {
  }

  lemma Distribute(x: int, y: int, z: int)
    ensures x * (y + z) == x * y + x * z
    ensures (y + z) * x == y * x + z * x
  {
  }

  lemma Reassociate(x: int, y: int, z: int)
    ensures x * (y * z) == (x * y) * z == (y * x) * z
  {
  }

  lemma CongruentSum(a: int, a': int, b: int, b': int, n: int)
    requires n > 0 && Congruent(a, a', n) && Congruent(b, b', n)
    ensures Congruent(a + b, a' + b', n)
    ensures Congruent(a - b, a' - b', n)
  {
    var p := CongruentGap(a, a', n);
    var q := CongruentGap(b, b', n);
    assert (p + q) * n == p * n + q * n && (p - q) * n == p * n - q * n;
    CongruentByMultiple(a + b, a' + b', p + q, n);
    CongruentByMultiple(a - b, a' - b', p - q, n);
  }

  lemma CongruentProduct(a: int, a': int, b: int, b': int, n: int)
    requires n > 0 && Congruent(a, a', n) && Congruent(b, b', n)
    ensures Congruent(a * b, a' * b', n)
  {
    var p := CongruentGap(a, a', n);
    var q := CongruentGap(b, b', n);
    var k := a * q + p * b';
    assert a * b == a * b' + a * q * n by {
      Distribute(a, b', q * n);
      Reassociate(a, q, n);
    }
    assert a * b' == a' * b' + p * b' * n by {
      Distribute(b', a', p * n);
      Reassociate(b', p, n);
    }
    assert k * n == a * q * n + p * b' * n by {
      Distribute(n, a * q, p * b');
    }
    CongruentByMultiple(a * b, a' * b', k, n);
  }

  lemma {:induction false} CongruentPow(a: int, a': int, e: nat, n: int)
    requires n > 0 && Congruent(a, a', n)
    ensures Congruent(Pow(a, e), Pow(a', e), n)
  {
    if e > 0 {
      CongruentPow(a, a', e - 1, n);
      CongruentProduct(a, a', Pow(a, e - 1), Pow(a', e - 1), n);
    }
  }

  lemma {:induction false} PowSum(b: int, x: nat, y: nat)
    ensures Pow(b, x + y) == Pow(b, x) * Pow(b, y)
  {
    if x > 0 {
      PowSum(b, x - 1, y);
      assert b * (Pow(b, x - 1) * Pow(b, y)) == (b * Pow(b, x - 1)) * Pow(b, y);
    }
  }

  lemma Regroup(a: int, b: int, p: int, q: int)
    ensures (a * b) * (p * q) == (a * p) * (b * q)
  {
    calc {
      (a * b) * (p * q);
      { Reassociate(a * b, p, q); }
      ((a * b) * p) * q;
      { Reassociate(b, a, p); }
      (b * (a * p)) * q;
      { Reassociate(b, a * p, q); }
      (a * p) * (b * q);
    }
  }

  lemma PowStep(b: int, e: nat)
    requires e > 0
    ensures Pow(b, e) == b * Pow(b, e - 1)
  {
  }

  lemma {:induction false} PowOfProduct(a: int, b: int, e: nat)
    ensures Pow(a * b, e) == Pow(a, e) * Pow(b, e)
  {
    if e == 0 {
      assert Pow(a * b, 0) == 1 && Pow(a, 0) == 1 && Pow(b, 0) == 1;
    } else {
      hide Pow;
      PowStep(a, e);
      PowStep(b, e);
      PowStep(a * b, e);
      PowOfProduct(a, b, e - 1);
      Regroup(a, b, Pow(a, e - 1), Pow(b, e - 1));
    }
  }

  lemma {:induction false} PowOfPow(b: int, x: nat, y: nat)
    requires x * y >= 0
    ensures Pow(Pow(b, x), y) == Pow(b, x * y)
  {
    if y == 0 {
      assert x * y == 0;
    } else {
      assert x * (y - 1) >= 0;
      PowOfPow(b, x, y - 1);
      assert x * y == x + x * (y - 1);
      PowSum(b, x, x * (y - 1));
    }
  }
}
