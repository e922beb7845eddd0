/** Powers of two, bit masks and remainders. */
module Masks {

  function Pow2(k: nat): (p: nat)
    ensures p >= 1
  {
    if k == 0 then 1 else 2 * Pow2(k - 1)
  }

  /** Bitwise and of two non-negative integers. */
  function And(x: nat, y: nat): (z: nat) {
    if x == 0 || y == 0 then 0
    else 2 * And(x / 2, y / 2) + (if x % 2 == 1 && y % 2 == 1 then 1 else 0)
  }

  lemma MulGap(m: nat, a: int)
    requires m > 0
    ensures a >= 1 ==> m * a >= m
    ensures a <= -1 ==> m * a <= 0 - m
  {
  }

  /** A quotient and a remainder in range are the quotient and the remainder. */
  lemma DivModUnique(x: int, m: nat, q: int, r: int)
    requires m > 0 && x == m * q + r && 0 <= r < m
    ensures x / m == q && x % m == r
  {
    assert x == m * (x / m) + x % m;
    var d := x / m - q;
    assert m * d == r - x % m by {
      assert m * d == m * (x / m) - m * q;
    }
    MulGap(m, d);
  }

  /** The remainder by 2m from the remainder of the half by m. */
  lemma HalfMod(x: nat, m: nat)
    requires m > 0
    ensures x % (2 * m) == 2 * ((x / 2) % m) + x % 2
  {
    var h := x / 2;
    var q, r := h / m, h % m;
    assert h == m * q + r;
    assert 2 * (m * q) == (2 * m) * q;
    DivModUnique(x, 2 * m, q, 2 * r + x % 2);
  }

  /** One bit of the mask 2m - 1. */
  lemma OddMask(x: nat, m: nat)
    requires m > 0 && x > 0
    ensures And(x, 2 * m - 1) == 2 * And(x / 2, m - 1) + x % 2
  {
    assert (2 * m - 1) / 2 == m - 1 && (2 * m - 1) % 2 == 1;
  }

  lemma {:induction false} MaskStep(x: nat, m: nat)
    requires m > 0 && And(x / 2, m - 1) == (x / 2) % m
    ensures And(x, 2 * m - 1) == x % (2 * m)
  {
    if x > 0 {
      OddMask(x, m);
      HalfMod(x, m);
    } else {
      DivModUnique(0, 2 * m, 0, 0);
    }
  }

  /** Masking with 2^k - 1 is taking the remainder by 2^k. */
  lemma {:induction false} MaskIsMod(x: nat, k: nat)
    ensures And(x, Pow2(k) - 1) == x % Pow2(k)
    decreases k
  {
    if k == 0 {
      DivModUnique(x, 1, x, 0);
    } else {
      var m := Pow2(k - 1);
      assert Pow2(k) == 2 * m;
      hide And, Pow2;
      MaskIsMod(x / 2, k - 1);
      MaskStep(x, m);
    }
  }

  lemma {:induction false} Pow2Divides(a: nat, b: nat)
    requires a <= b
    ensures Pow2(b) % Pow2(a) == 0 && Pow2(a) <= Pow2(b)
    decreases b
  {
    if a < b {
      Pow2Divides(a, b - 1);
      var m := Pow2(a);
      var q := Pow2(b - 1) / m;
      assert Pow2(b - 1) == m * q;
      assert Pow2(b) == m * (2 * q) + 0;
      DivModUnique(Pow2(b), m, 2 * q, 0);
    }
  }

  /** Adding does not care whether one side was reduced first. */
  lemma ModAdd(x: int, y: int, m: nat)
    requires m > 0
    ensures (x % m + y) % m == (x + y) % m
  {
    var z := x % m + y;
    assert x + y == m * (x / m) + z;
    assert z == m * (z / m) + z % m;
    assert x + y == m * (x / m + z / m) + z % m;
    DivModUnique(x + y, m, x / m + z / m, z % m);
  }
}

/** Indices that wrap around at `m`. */
module RingIndex {
  import opened Masks

  /** i + n for an index below m and a step of at most m. */
  function Plus(i: nat, n: nat, m: nat): (k: nat)
    requires i < m && n <= m
    ensures k < m
  {
    if i + n >= m then i + n - m else i + n
  }

  /** Masking a wrapped index is stepping the masked index around the ring. */
  lemma MaskedPlus(i: nat, n: nat, k: nat, bits: nat)
    requires k <= bits && i < Pow2(bits) && n <= Pow2(k) <= Pow2(bits)
    ensures And(i, Pow2(k) - 1) < Pow2(k)
    ensures And(Plus(i, n, Pow2(bits)), Pow2(k) - 1) == Plus(And(i, Pow2(k) - 1), n, Pow2(k))
  {
    var len, m := Pow2(k), Pow2(bits);
    var at := Plus(i, n, m);
    MaskIsMod(i, k);
    MaskIsMod(at, k);
    Pow2Divides(k, bits);
    assert (i + n) % len == at % len by {
      if at != i + n {
        ModAdd(m, at, len);
      }
    }
    ModAdd(i, n, len);
    var base := i % len;
    if base + n < len {
      DivModUnique(base + n, len, 0, base + n);
    } else {
      DivModUnique(base + n, len, 1, base + n - len);
    }
  }
}
