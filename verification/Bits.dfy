/** Powers of two and masks. */
module Bits {

  predicate IsPow2(n: nat)
    decreases n
  {
    n == 1 || (n > 1 && n % 2 == 0 && IsPow2(n / 2))
  }

  /** roundup_pow_of_two: the one power of two in [n, 2n) */
  function RoundupPow2(n: nat): (r: nat)
    requires n > 0
    ensures n <= r < 2 * n && IsPow2(r)
    decreases n
  {
    if n == 1 then 1
    else
      var h := RoundupPow2((n + 1) / 2);
      assert h == 1 || h % 2 == 0;
      assert (2 * h) % 2 == 0 && (2 * h) / 2 == h;
      2 * h
  }

  /** Bitwise and. */
  function And(a: nat, b: nat): (r: nat)
    decreases a
  {
    if a == 0 || b == 0 then 0 else 2 * And(a / 2, b / 2) + (if a % 2 == 1 && b % 2 == 1 then 1 else 0)
  }

  /** Masking with one less than a power of two is taking the remainder. */
  lemma {:induction false} MaskIsRemainder(x: nat, n: nat)
    requires IsPow2(n)
    ensures And(x, n - 1) == x % n
    decreases x
  {
    hide And, IsPow2;
    HalfPow2(n);
    if n > 1 && x > 0 {
      var h := n / 2;
      MaskIsRemainder(x / 2, h);
      MaskStep(x, h);
      HalfRemainder(x, h);
      assert And(x, 2 * h - 1) == x % (2 * h);
    } else {
      NothingMasked(x, n);
      if n == 1 { assert x % 1 == 0; }
    }
  }

  lemma HalfPow2(n: nat)
    requires IsPow2(n)
    ensures n > 0 && (n > 1 ==> n == 2 * (n / 2) && IsPow2(n / 2))
  {
  }

  lemma NothingMasked(x: nat, n: nat)
    requires n == 1 || (x == 0 && n > 0)
    ensures And(x, n - 1) == 0
  {
  }

  lemma MaskStep(x: nat, h: nat)
    requires h > 0 && x > 0
    ensures And(x, 2 * h - 1) == 2 * And(x / 2, h - 1) + x % 2
  {
    assert (2 * h - 1) / 2 == h - 1 && (2 * h - 1) % 2 == 1;
  }

  lemma HalfRemainder(x: nat, h: nat)
    requires h > 0
    ensures x % (2 * h) == 2 * ((x / 2) % h) + x % 2
  {
    var q, r := (x / 2) / h, (x / 2) % h;
    assert x / 2 == q * h + r;
    assert x == 2 * (q * h + r) + x % 2;
    Regroup(q, h);
    Remainder(x, q, 2 * h, 2 * r + x % 2);
  }

  lemma Regroup(q: nat, h: nat)
    ensures 2 * (q * h) == q * (2 * h)
  {
  }

  lemma Remainder(x: nat, q: nat, d: nat, r: nat)
    requires d > 0 && x == q * d + r && r < d
    ensures x % d == r
  {
    var k := x / d;
    if k >= q + 1 {
      Monotone(q + 1, k, d);
      assert false;
    }
    if k + 1 <= q {
      Monotone(k + 1, q, d);
      assert false;
    }
  }

  lemma Monotone(a: nat, b: nat, d: nat)
    requires a <= b
    ensures a * d <= b * d
  {
  }

  /** Between a power of two and its double there is none. */
  lemma {:induction false} Pow2Gap(k: nat, p: nat)
    requires IsPow2(k) && IsPow2(p) && k < p
    ensures 2 * k <= p
    decreases p
  {
    if k > 1 { Pow2Gap(k / 2, p / 2); }
  }

  lemma OneIsPow2()
    ensures IsPow2(1)
  {
  }

  lemma Doubled(n: nat)
    requires IsPow2(n)
    ensures IsPow2(2 * n)
  {
    assert (2 * n) / 2 == n;
  }
}
