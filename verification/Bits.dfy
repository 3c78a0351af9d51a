/** The unsigned bit operations of the source, written out on unbounded naturals. */
module Bits {

  function Pow2(k: nat): (p: nat)
    ensures p >= 1
  {
    if k == 0 then 1 else 2 * Pow2(k - 1)
  }

  /** `a & b` */
  function BitAnd(a: nat, b: nat): nat
    decreases a
  {
    if a == 0 || b == 0 then 0
    else (if a % 2 == 1 && b % 2 == 1 then 1 else 0) + 2 * BitAnd(a / 2, b / 2)
  }

  /** `a >> k` */
  function ShiftRight(a: nat, k: nat): nat {
    if k == 0 then a else ShiftRight(a / 2, k - 1)
  }

  lemma HalfMod(h: nat, m: nat)
    requires m > 0
    ensures h % (2 * m) == h % 2 + 2 * ((h / 2) % m)
    ensures h / (2 * m) == (h / 2) / m
  {
    var q, r := (h / 2) / m, (h / 2) % m;
    assert h == 2 * (q * m + r) + h % 2;
    DivModUnique(h, 2 * m, q, 2 * r + h % 2);
  }

  lemma MulAtLeast(x: int, d: nat)
    requires x >= 1
    ensures x * d >= d
  {
  }

  lemma DivModUnique(a: nat, d: nat, q: nat, r: nat)
    requires d > 0 && r < d && a == q * d + r
    ensures a / d == q && a % d == r
  {
    var q' := a / d;
    var x := q - q';
    assert x * d == q * d - q' * d;
    if x >= 1 {
      MulAtLeast(x, d);
    } else if x <= -1 {
      MulAtLeast(-x, d);
    }
  }

  lemma TwiceMinusOne(m: nat)
    requires m > 0
    ensures (2 * m - 1) % 2 == 1 && (2 * m - 1) / 2 == m - 1
  {
  }

  lemma BitAndStep(h: nat, m: nat)
    requires m > 0
    ensures BitAnd(h, 2 * m - 1) == h % 2 + 2 * BitAnd(h / 2, m - 1)
  {
    TwiceMinusOne(m);
    if h == 0 { assert BitAnd(0, m - 1) == 0; }
  }

  /** Masking with a power of two minus one is reduction modulo that power. */
  lemma {:induction false} MaskIsMod(h: nat, k: nat)
    ensures BitAnd(h, Pow2(k) - 1) == h % Pow2(k)
    decreases k
  {
    if k > 0 {
      var m := Pow2(k - 1);
      assert Pow2(k) == 2 * m;
      hide *;
      MaskIsMod(h / 2, k - 1);
      BitAndStep(h, m);
      HalfMod(h, m);
    } else {
      ModOne(h);
    }
  }

  lemma ModOne(h: nat)
    ensures h % 1 == 0 && BitAnd(h, 0) == 0
  {
  }

  lemma MulTwice(q: nat, n: nat)
    ensures q * (2 * n) == (2 * q) * n
    ensures (2 * q + 1) * n == (2 * q) * n + n
  {
  }

  lemma Divide(h: nat, d: nat) returns (q: nat, r: nat)
    requires d > 0
    ensures q == h / d && r == h % d && r < d && h == q * d + r
  {
    q, r := h / d, h % d;
  }

  lemma ResidueOf(h: nat, n: nat, m: nat, q: nat, r: nat) returns (low: nat)
    requires n > 0 && m == 2 * n && h == q * m + r && r < m
    ensures low == h % n && low == r % n
    ensures r == low || r == low + n
  {
    MulTwice(q, n);
    if r < n {
      low := r;
      DivModUnique(h, n, 2 * q, r);
      DivModUnique(r, n, 0, r);
    } else {
      low := r - n;
      DivModUnique(h, n, 2 * q + 1, r - n);
      DivModUnique(r, n, 1, r - n);
    }
  }

  /** Doubling the modulus splits each residue class in two. */
  lemma ModDoubles(h: nat, n: nat, m: nat)
    requires n > 0 && m == 2 * n
    ensures (h % m) % n == h % n
    ensures h % m == h % n || h % m == h % n + n
  {
    var q, r := Divide(h, m);
    var low := ResidueOf(h, n, m, q, r);
  }

  lemma {:induction false} ShiftIsDiv(a: nat, k: nat)
    ensures ShiftRight(a, k) == a / Pow2(k)
    decreases k
  {
    if k > 0 {
      ShiftIsDiv(a / 2, k - 1);
      HalfMod(a, Pow2(k - 1));
    }
  }

  /** The least integer not below a/b. */
  ghost predicate IsCeiling(c: nat, a: nat, b: nat)
    requires b > 0
  {
    c * b >= a && (c > 0 ==> (c - 1) * b < a)
  }

  lemma CeilingOf(a: nat, d: nat, q: nat, r: nat)
    requires d > 0 && r < d && a == q * d + r
    ensures IsCeiling(q + (if r != 0 then 1 else 0), a, d)
  {
    assert (q + 1) * d == q * d + d;
    assert (q - 1) * d == q * d - d;
  }

  lemma DivModIdentity(a: nat, d: nat)
    requires d > 0
    ensures a == (a / d) * d + a % d && a % d < d
  {
  }

  lemma ShiftMaskCeiling(a: nat, k: nat)
    ensures IsCeiling(ShiftRight(a, k) + (if BitAnd(a, Pow2(k) - 1) != 0 then 1 else 0), a, Pow2(k))
  {
    hide IsCeiling, Pow2, BitAnd, ShiftRight;
    MaskIsMod(a, k);
    ShiftIsDiv(a, k);
    DivModIdentity(a, Pow2(k));
    CeilingOf(a, Pow2(k), a / Pow2(k), a % Pow2(k));
  }
}
