/** Remainders, and the bit mask that computes them for powers of two. */
module Modular {

  function Pow2(k: nat): (p: nat)
    ensures p > 0
  {
    if k == 0 then 1 else 2 * Pow2(k - 1)
  }

  /** Bitwise and of two natural numbers. */
  function BitAnd(x: nat, y: nat): nat {
    if x == 0 || y == 0 then 0
    else 2 * BitAnd(x / 2, y / 2) + if x % 2 == 1 && y % 2 == 1 then 1 else 0
  }

  lemma MulMono(n: nat, x: int, y: int)
    requires x <= y
    ensures n * x <= n * y
  {
  }

  lemma MulAdd(n: int, x: int, y: int)
    ensures n * (x + y) == n * x + n * y
  {
  }

  lemma MulNext(n: int, q: int)
    ensures n * (q + 1) == n * q + n
  {
  }

  lemma DivMod(x: nat, n: nat)
    requires n > 0
    ensures x == n * (x / n) + x % n && 0 <= x % n < n && x / n >= 0
  {
  }

  /** Quotients and remainders are unique. */
  lemma DivUnique(x: nat, n: nat, q: int, r: int)
    requires n > 0 && x == n * q + r && 0 <= r < n
    ensures x / n == q && x % n == r
  {
    var p := x / n;
    DivMod(x, n);
    if p < q {
      MulMono(n, p + 1, q);
      MulNext(n, p);
    } else if p > q {
      MulMono(n, q + 1, p);
      MulNext(n, q);
    }
  }

  lemma DivMonotonic(x: nat, y: nat, n: nat)
    requires n > 0 && x <= y
    ensures x / n <= y / n
  {
    DivMod(x, n);
    DivMod(y, n);
    if y / n + 1 <= x / n {
      MulMono(n, y / n + 1, x / n);
      MulNext(n, y / n);
    }
  }

  lemma DivCancels(x: nat, n: nat)
    requires n > 0
    ensures x * n / n == x
  {
    DivUnique(x * n, n, x, 0);
  }

  lemma ModUnique(x: nat, n: nat, q: int, r: int)
    requires n > 0 && x == n * q + r && 0 <= r < n
    ensures x % n == r
  {
    DivUnique(x, n, q, r);
  }

  /** Numbers less than n apart have different remainders. */
  lemma ModDiffers(a: nat, b: nat, n: nat)
    requires n > 0 && a < b < a + n
    ensures a % n != b % n
  {
    if a % n == b % n {
      DivMod(a, n);
      DivMod(b, n);
      if b / n <= a / n {
        MulMono(n, b / n, a / n);
      } else {
        MulMono(n, a / n + 1, b / n);
        MulNext(n, a / n);
      }
    }
  }

  lemma ModShift(a: nat, n: nat)
    requires n > 0
    ensures (a + n) % n == a % n
  {
    DivMod(a, n);
    MulNext(n, a / n);
    ModUnique(a + n, n, a / n + 1, a % n);
  }

  lemma ModNext(a: nat, n: nat)
    requires n > 0
    ensures (a % n + 1) % n == (a + 1) % n
  {
    DivMod(a, n);
    var q, r := a / n, a % n;
    if r + 1 < n {
      ModUnique(a + 1, n, q, r + 1);
      ModUnique(r + 1, n, 0, r + 1);
    } else {
      MulNext(n, q);
      ModUnique(a + 1, n, q + 1, 0);
      ModUnique(r + 1, n, 1, 0);
    }
  }

  lemma AndStep(x: nat, m: nat)
    requires m > 0
    ensures BitAnd(x, 2 * m - 1) == 2 * BitAnd(x / 2, m - 1) + x % 2
  {
    assert (2 * m - 1) / 2 == m - 1 && (2 * m - 1) % 2 == 1;
  }

  lemma DoubleMul(m: nat, q: nat)
    ensures 2 * m * q == 2 * (m * q)
  {
  }

  lemma ModDouble(x: nat, m: nat)
    requires m > 0
    ensures x % (2 * m) == 2 * (x / 2 % m) + x % 2
  {
    var h := x / 2;
    DivMod(h, m);
    DoubleMul(m, h / m);
    ModUnique(x, 2 * m, h / m, 2 * (h % m) + x % 2);
  }

  lemma AndZero(x: nat)
    ensures BitAnd(x, 0) == 0
  {
  }

  /** Masking with 2^k - 1 is the remainder modulo 2^k. */
  lemma {:induction false} MaskIsMod(x: nat, k: nat)
    ensures BitAnd(x, Pow2(k) - 1) == x % Pow2(k)
    decreases k
  {
    hide BitAnd;
    if k == 0 {
      AndZero(x);
      ModUnique(x, 1, x, 0);
    } else {
      MaskIsMod(x / 2, k - 1);
      AndStep(x, Pow2(k - 1));
      ModDouble(x, Pow2(k - 1));
    }
  }
}
