/** Integer facts shared by the keyspace model: exact powers (the source's `**` on
    Python integers, and the value `pow` is meant to produce in C++), the total
    keyspace size, and the division facts that mixed-radix decoding rests on. */
module Arith {

  /** b^e on the naturals. */
  function Pow(b: nat, e: nat): (p: nat)
    ensures b > 0 ==> p > 0
  {
    if e == 0 then 1 else b * Pow(b, e - 1)
  }

  /** m^1 + m^2 + ... + m^n: the number of candidates of lengths 1..n
      (`overall_total` in every cracker). */
  function SumPow(m: nat, n: nat): nat
  {
    if n == 0 then 0 else SumPow(m, n - 1) + Pow(m, n)
  }

  /** Ceiling division as the source writes it: `(n + k - 1) // k`. */
  function CeilDiv(n: nat, k: nat): (c: nat)
    requires k > 0
    ensures c * k >= n
    ensures c > 0 ==> (c - 1) * k < n
  {
    DivModUnique(n + k - 1, k, (n + k - 1) / k, (n + k - 1) % k);
    (n + k - 1) / k
  }

  lemma PowPositive(b: nat, e: nat)
    requires b > 0
    ensures Pow(b, e) > 0
  {
    if e > 0 {
      PowPositive(b, e - 1);
    }
  }

  lemma {:induction false} PowAdd(b: nat, x: nat, y: nat)
    ensures Pow(b, x + y) == Pow(b, x) * Pow(b, y)
  {
    if y > 0 {
      PowAdd(b, x, y - 1);
      MulLeftComm(b, Pow(b, x), Pow(b, y - 1));
    }
  }

  lemma MulLeftComm(a: int, b: int, c: int)
    ensures a * (b * c) == b * (a * c)
  {
  }

  lemma PowZeroBase(e: nat)
    requires e > 0
    ensures Pow(0, e) == 0
  {
  }

  lemma PositiveFactors(a: nat, b: nat)
    requires a * b > 0
    ensures a > 0 && b > 0
  {
  }

  /** i is its quotient by d times d, plus its remainder. */
  lemma DivModSplit(i: int, d: int)
    requires d > 0
    ensures i == i / d * d + i % d && 0 <= i % d < d
    ensures i >= 0 ==> i / d >= 0
  {
  }

  /** Division and remainder are determined by any decomposition i = q*d + r, 0 <= r < d. */
  lemma DivModUnique(i: int, d: int, q: int, r: int)
    requires d > 0 && 0 <= r < d && i == q * d + r
    ensures i / d == q && i % d == r
  {
    var q', r' := i / d, i % d;
    MulDistinct(q, q', d, r, r');
  }

  /** Two decompositions with remainders below d have equal quotients. */
  lemma MulDistinct(q: int, q': int, d: int, r: int, r': int)
    requires d > 0 && 0 <= r < d && 0 <= r' < d
    requires q * d + r == q' * d + r'
    ensures q == q'
  {
    if q > q' {
      MulAtLeast(q - q', d);
    } else if q < q' {
      MulAtLeast(q' - q, d);
    }
  }

  lemma MulAtLeast(k: int, d: int)
    requires k >= 1 && d > 0
    ensures k * d >= d
  {
  }

  lemma DivBound(i: nat, a: nat, b: nat)
    requires a > 0 && i < a * b
    ensures i / a < b
  {
  }

  /** Removing one block of m from j (with m <= j < k*m) lowers the quotient by one
      and keeps the remainder. */
  lemma ShiftBlock(j: nat, m: nat, k: nat)
    requires m > 0 && m <= j < k * m
    ensures j - m < (k - 1) * m
    ensures j / m == (j - m) / m + 1 && j % m == (j - m) % m
  {
    var q, r := (j - m) / m, (j - m) % m;
    DivModSplit(j - m, m);
    assert j == (q + 1) * m + r;
    DivModUnique(j, m, q + 1, r);
  }

  /** Dropping the last base-m digit of an n-digit number leaves n - 1 digits. */
  lemma DivPow(i: nat, m: nat, n: nat)
    requires m > 0 && n > 0 && i < Pow(m, n)
    ensures i / m < Pow(m, n - 1)
  {
    DivBound(i, m, Pow(m, n - 1));
  }

  /** Dividing by m^e and then by m is dividing by m^(e+1). */
  lemma DivPowSucc(i: nat, m: nat, e: nat)
    requires m > 0
    ensures i / Pow(m, e) / m == i / Pow(m, e + 1)
  {
    PowPositive(m, e);
    DivDiv(i, Pow(m, e), m);
    assert Pow(m, e + 1) == Pow(m, e) * m;
  }

  /** Regrouping the two-level decomposition (q*b + r)*a + s. */
  lemma Regroup(q: int, b: int, r: int, a: int, s: int)
    ensures (q * b + r) * a + s == q * (a * b) + (r * a + s)
  {
  }

  /** One more block of size m. */
  lemma MulSucc(a: int, m: int)
    ensures (a + 1) * m == a * m + m
  {
  }

  /** An index in block a (of blocks of size m) has quotient a and remainder i - a*m. */
  lemma InBlock(i: nat, a: nat, m: nat)
    requires a * m <= i < a * m + m
    ensures i / m == a && i % m == i - a * m
  {
    DivModUnique(i, m, a, i - a * m);
  }

  /** A two-digit number r*a + s with digits below b and a is below a*b. */
  lemma TwoDigitBound(r: nat, b: nat, a: nat, s: nat)
    requires r < b && s < a
    ensures r * a + s < a * b
  {
    assert r * a <= (b - 1) * a;
  }

  /** (i / a) / b == i / (a * b), and the low part of i modulo a*b. */
  lemma DivDiv(i: nat, a: nat, b: nat)
    requires a > 0 && b > 0
    ensures i / a / b == i / (a * b)
    ensures i % (a * b) == (i / a) % b * a + i % a
  {
    var q1, r1 := i / a, i % a;
    var q2, r2 := q1 / b, q1 % b;
    Regroup(q2, b, r2, a, r1);
    TwoDigitBound(r2, b, a, r1);
    DivModUnique(i, a * b, q2, r2 * a + r1);
  }

  /** Taking i modulo a*b keeps its last base-a digit and the next b-ary part. */
  lemma ModMul(i: nat, a: nat, b: nat)
    requires a > 0 && b > 0
    ensures (i % (a * b)) / a == (i / a) % b
    ensures (i % (a * b)) % a == i % a
  {
    DivDiv(i, a, b);
    DivModUnique(i % (a * b), a, (i / a) % b, i % a);
  }

  /** Ceiling division loses one block of k when n holds at least one. */
  lemma CeilDivStep(n: nat, k: nat)
    requires k > 0 && n >= k
    ensures CeilDiv(n, k) == CeilDiv(n - k, k) + 1
  {
    var x := n - k + k - 1;
    DivModSplit(x, k);
    DivModUnique(x + k, k, x / k + 1, x % k);
  }

  /** A non-empty n of at most k rounds up to one block. */
  lemma CeilDivOne(n: nat, k: nat)
    requires 0 < n <= k
    ensures CeilDiv(n, k) == 1
  {
    DivModUnique(n + k - 1, k, 1, n - 1);
  }

  /** No blocks for nothing. */
  lemma CeilDivZero(k: nat)
    requires k > 0
    ensures CeilDiv(0, k) == 0
  {
    DivModUnique(k - 1, k, 0, k - 1);
  }

  /** If w blocks of size k hold n, then ceil(n / k) <= w. */
  lemma CeilDivAtMost(n: nat, k: nat, w: nat)
    requires k > 0 && w * k >= n
    ensures CeilDiv(n, k) <= w
  {
    var q := CeilDiv(n, k);
    if q > w {
      MulMono(w, q - 1, k);
    }
  }

  lemma MulMono(a: nat, b: nat, c: nat)
    requires a <= b
    ensures a * c <= b * c
  {
  }

  /** Dividing by the same positive d keeps the order. */
  lemma DivMono(a: nat, b: nat, d: nat)
    requires d > 0 && a <= b
    ensures a / d <= b / d
  {
    DivModSplit(a, d);
    DivModSplit(b, d);
    if a / d > b / d {
      MulMono(b / d + 1, a / d, d);
      assert false;
    }
  }
}
