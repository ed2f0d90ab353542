/** Powers of two, shifts and the few facts about products and quotients the codecs need. */
module Arith {
  import opened Base

  function Pow2(n: nat): (r: nat)
    ensures r >= 1
  {
    if n == 0 then 1 else 2 * Pow2(n - 1)
  }

  /** Rust's `>>` on an unsigned value. */
  function Shr(x: nat, k: nat): nat {
    QuotientNonNegative(x, Pow2(k));
    x / Pow2(k)
  }

  lemma {:induction false} QuotientNonNegative(x: nat, m: nat)
    requires m > 0
    ensures x / m >= 0
  {
  }

  lemma {:induction false} Pow2Sum(a: nat, b: nat)
    ensures Pow2(a + b) == Pow2(a) * Pow2(b)
  {
    if b > 0 {
      Pow2Sum(a, b - 1);
      assert Pow2(a + b) == 2 * Pow2(a + (b - 1));
    }
  }

  lemma {:induction false} Pow2Values()
    ensures Pow2(5) == 32 && Pow2(7) == 128 && Pow2(8) == 256 && Pow2(32) == U32_LIMIT && Pow2(64) == U64_LIMIT
  {
    assert Pow2(2) == 4 && Pow2(4) == 16;
    Pow2Sum(4, 4);
    Pow2Sum(8, 8);
    Pow2Sum(16, 16);
    Pow2Sum(32, 32);
  }

  lemma {:induction false} Pow2Below(a: nat, b: nat)
    requires a < b
    ensures Pow2(a) < Pow2(b)
    decreases b
  {
    if a < b - 1 {
      Pow2Below(a, b - 1);
    }
  }

  lemma {:induction false} MulAtLeast(k: nat, m: nat)
    requires k >= 1
    ensures k * m >= m
  {
    assert k * m == (k - 1) * m + m;
  }

  lemma {:induction false} BelowProduct(x: nat, p: nat, q: nat)
    requires x < q
    ensures x * p <= q * p - p
  {
    MulAtLeast(q - x, p);
    assert q * p == x * p + (q - x) * p;
  }

  lemma {:induction false} NextMultiple(a: nat, b: nat, m: nat)
    requires a < b
    ensures b * m >= a * m + m
  {
    MulAtLeast(b - a, m);
    assert b * m == a * m + (b - a) * m;
  }

  /** Division with remainder has one answer. */
  lemma {:induction false} DivModUnique(n: nat, m: nat, q: nat, r: nat)
    requires m > 0 && r < m && n == q * m + r
    ensures n / m == q && n % m == r
  {
    var q' := n / m;
    assert n == q' * m + n % m;
    if q' > q {
      NextMultiple(q, q', m);
    } else if q' < q {
      NextMultiple(q', q, m);
    }
  }

  lemma {:induction false} DivMod(x: nat, m: nat)
    requires m > 0
    ensures x == (x / m) * m + x % m && x % m < m
  {
  }

  lemma {:induction false} Nested(q: nat, b: nat, s: nat, a: nat, r: nat)
    ensures (q * b + s) * a + r == q * (a * b) + (s * a + r)
  {
    assert (q * b + s) * a == (q * b) * a + s * a;
    assert (q * b) * a == q * (a * b);
  }

  lemma {:induction false} DivideTwice(x: nat, a: nat, b: nat)
    requires a > 0 && b > 0
    ensures a * b > 0 && (x / a) / b == x / (a * b)
  {
    var q, r := x / a, x % a;
    var t, s := q / b, q % b;
    DivMod(x, a);
    DivMod(q, b);
    MulAtLeast(a, b);
    Nested(t, b, s, a, r);
    BelowProduct(s, a, b);
    Commute(a, b);
    DivModUnique(x, a * b, t, s * a + r);
  }

  lemma {:induction false} Commute(a: nat, b: nat)
    ensures a * b == b * a
  {
  }

  lemma {:induction false} ShrTwice(x: nat, a: nat, b: nat)
    ensures Shr(Shr(x, a), b) == Shr(x, a + b)
  {
    Pow2Sum(a, b);
    DivideTwice(x, Pow2(a), Pow2(b));
  }

  /** Scaling by `p` scales the remainder. */
  lemma {:induction false} ScaledRemainder(x: nat, p: nat, m: nat)
    requires p > 0 && m > 0
    ensures m * p > 0 && x * p % (m * p) == (x % m) * p && (x % m) * p <= m * p - p
  {
    var q, r := x / m, x % m;
    MulAtLeast(m, p);
    BelowProduct(r, p, m);
    assert x * p == q * (m * p) + r * p by {
      assert x == q * m + r;
      assert x * p == (q * m) * p + r * p;
      assert (q * m) * p == q * (m * p);
    }
    DivModUnique(x * p, m * p, q, r * p);
  }

  /** A coarser remainder keeps the finer one. */
  lemma {:induction false} NestedRemainder(x: nat, c: nat, p: nat)
    requires c > 0 && p > 0
    ensures c * p > 0 && (x % (c * p)) % p == x % p
  {
    MulAtLeast(c, p);
    var m := c * p;
    var q, r := x / m, x % m;
    DivMod(x, m);
    DivMod(r, p);
    Distribute(q, c, p, r / p);
    DivModUnique(x, p, q * c + r / p, r % p);
  }

  lemma {:induction false} Distribute(q: nat, c: nat, p: nat, q': nat)
    ensures q * (c * p) + q' * p == (q * c + q') * p
  {
    assert q * (c * p) == (q * c) * p;
  }

  // ----- octets compared bit by bit -----

  /** Rust's `^` on unsigned values. */
  function BitXor(x: nat, y: nat): nat
    decreases x + y
  {
    if x == 0 && y == 0 then 0 else (x % 2 + y % 2) % 2 + 2 * BitXor(x / 2, y / 2)
  }

  /** Rust's `|` on unsigned values. */
  function BitOr(x: nat, y: nat): nat
    decreases x + y
  {
    if x == 0 && y == 0 then 0 else Max(x % 2, y % 2) + 2 * BitOr(x / 2, y / 2)
  }

  lemma {:induction false} XorZero(x: nat, y: nat)
    ensures BitXor(x, y) == 0 <==> x == y
    decreases x + y
  {
    if x != 0 || y != 0 {
      XorZero(x / 2, y / 2);
    }
  }

  lemma {:induction false} OrZero(x: nat, y: nat)
    ensures BitOr(x, y) == 0 <==> x == 0 && y == 0
    decreases x + y
  {
    if x != 0 || y != 0 {
      OrZero(x / 2, y / 2);
    }
  }

  /** `diff |= x ^ y` stays zero exactly while the octets compared are equal. */
  lemma {:induction false} OctetsDiffer(x: nat, y: nat, diff: nat)
    ensures BitOr(diff, BitXor(x, y)) == 0 <==> diff == 0 && x == y
  {
    XorZero(x, y);
    OrZero(diff, BitXor(x, y));
  }

  lemma {:induction false} Reassociate<T>(a: seq<T>, b: seq<T>, c: seq<T>)
    ensures (a + b) + c == a + (b + c)
  {
  }
}
