/** Facts about division and remainder by a variable divisor, and the machine-word bounds. */
module Arithmetic {
  const U16: nat := 0x1_0000
  const U32: nat := 0x1_0000_0000
  const U48: nat := 0x1_0000_0000_0000
  const U64: nat := 0x1_0000_0000_0000_0000

  function One(b: bool): nat { if b then 1 else 0 }

  function Min(a: nat, b: nat): nat { if a <= b then a else b }

  function Max(a: nat, b: nat): nat { if a <= b then b else a }

  /** Rust's `div_ceil`. */
  function DivCeil(a: nat, b: nat): nat
    requires b > 0
  {
    (a + b - 1) / b
  }

  lemma MulMono(a: int, b: int, c: int)
    requires a <= b && 0 <= c
    ensures a * c <= b * c
  {
  }

  /** A quotient and remainder in range are the quotient and remainder. */
  lemma DivModUnique(x: int, d: int, q: int, r: int)
    requires d > 0 && 0 <= r < d && x == d * q + r
    ensures x / d == q && x % d == r
  {
    var q', r' := x / d, x % d;
    assert d * (q' - q) == r - r';
    if q' > q {
      MulMono(1, q' - q, d);
      assert false;
    }
    if q' < q {
      MulMono(1, q - q', d);
      assert false;
    }
  }

  lemma ModShift(x: int, d: int, m: int)
    requires d > 0
    ensures (x + d * m) % d == x % d
    ensures (x + d * m) / d == x / d + m
  {
    assert x + d * m == d * (x / d + m) + x % d;
    DivModUnique(x + d * m, d, x / d + m, x % d);
  }

  /** The quotient is the unique q with d*q <= x < d*(q+1). */
  lemma DivBounds(x: int, d: int, q: int)
    requires d > 0
    ensures x / d == q <==> d * q <= x < d * (q + 1)
  {
    if d * q <= x < d * (q + 1) {
      DivModUnique(x, d, q, x - d * q);
    }
  }

  lemma DivMono(x: int, y: int, d: int)
    requires d > 0 && x <= y
    ensures x / d <= y / d
  {
    if x / d > y / d {
      MulMono(y / d + 1, x / d, d);
      assert false;
    }
  }

  /** Truncating division never loses by splitting a sum. */
  lemma DivSuperadditive(x: nat, y: nat, d: nat)
    requires d > 0
    ensures (x + y) / d >= x / d + y / d
  {
    var q, rest := x / d + y / d, x % d + y % d;
    Regroup(x, y, d);
    ModShift(rest, d, q);
    DivMono(0, rest, d);
  }

  /** ...and gains at most one. */
  lemma DivSubadditive(x: nat, y: nat, d: nat)
    requires d > 0
    ensures (x + y) / d <= x / d + y / d + 1
  {
    var q, rest := x / d + y / d, x % d + y % d;
    Regroup(x, y, d);
    ModShift(rest, d, q);
    DivMono(rest, 2 * d - 1, d);
    DivModUnique(2 * d - 1, d, 1, d - 1);
  }

  lemma DivCancel(x: nat, d: nat, m: nat)
    requires d > 0 && m > 0 && d * m > 0
    ensures (x * m) / (d * m) == x / d
  {
    var q, r := x / d, x % d;
    assert x * m == (d * m) * q + r * m by {
      assert x == d * q + r;
    }
    MulMono(r + 1, d, m);
    DivModUnique(x * m, d * m, q, r * m);
  }

  lemma Regroup(x: nat, y: nat, d: nat)
    requires d > 0
    ensures x + y == (x % d + y % d) + d * (x / d + y / d)
  {
    assert x == d * (x / d) + x % d;
    assert y == d * (y / d) + y % d;
    assert d * (x / d + y / d) == d * (x / d) + d * (y / d);
  }

  /** Taking the remainder digit by digit: the low digit, then the rest. */
  lemma ModSplit(v: nat, base: nat, r: nat)
    requires base > 0 && r > 0 && base * r > 0
    ensures v % (base * r) == base * ((v / base) % r) + v % base
  {
    var m, s := (v / base) / r, (v / base) % r;
    assert v == base * (r * m + s) + v % base;
    assert base * (r * m) == (base * r) * m;
    MulMono(s, r - 1, base);
    DivModUnique(v, base * r, m, base * s + v % base);
  }

  /** The rounded-up quotient stays at or below m exactly while m times the divisor covers the dividend. */
  lemma DivCeilAtMost(w: nat, d: nat, m: nat)
    requires d >= 1
    ensures DivCeil(w, d) <= m <==> w <= m * d
  {
    var q := DivCeil(w, d);
    assert w <= q * d < w + d;
    if q <= m {
      MulMono(q, m, d);
    } else {
      MulMono(m + 1, q, d);
      assert (m + 1) * d == m * d + d;
    }
  }

  /** One more item either opens the next group of d, exactly at a multiple, or does not. */
  lemma DivStep(i: nat, d: nat)
    requires d > 0
    ensures (i + 1) / d == if (i + 1) % d == 0 then i / d + 1 else i / d
  {
    if i % d == d - 1 {
      assert i + 1 == d * (i / d + 1) + 0;
      DivModUnique(i + 1, d, i / d + 1, 0);
    } else {
      assert i + 1 == d * (i / d) + (i % d + 1);
      DivModUnique(i + 1, d, i / d, i % d + 1);
    }
  }
}
