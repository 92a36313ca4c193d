/** The value of a Python float and Python's == between numbers. A float
    is read exactly as the decimal it writes: rounding to the nearest
    double is not modelled. Booleans and ints are the finite values
    Finite(i, 0), as Python compares True == 1 == 1.0. */
module Floats {

  /** m / 10^e, an infinity, or NaN. */
  datatype FloatValue = Finite(m: int, e: nat) | Infinite(neg: bool) | NaN

  function Pow10(e: nat): (r: nat)
    ensures r > 0
  {
    if e == 0 then 1 else 10 * Pow10(e - 1)
  }

  /** Python's == between two numbers: exact on finite values, the two
      infinities each equal only to themselves, NaN equal to nothing. */
  predicate NumEq(x: FloatValue, y: FloatValue) {
    match (x, y)
    case (Finite(m1, e1), Finite(m2, e2)) => m1 * Pow10(e2) == m2 * Pow10(e1)
    case (Infinite(n1), Infinite(n2)) => n1 == n2
    case _ => false
  }

  /** The same decimal with the trailing zeros of the mantissa removed:
      one way of writing each number. */
  function Norm(m: int, e: nat): (r: (int, nat))
    ensures r.1 <= e && m == r.0 * Pow10(e - r.1)
    ensures r.1 == 0 || r.0 % 10 != 0
    decreases e
  {
    if e > 0 && m % 10 == 0 then
      var r := Norm(m / 10, e - 1);
      assert Pow10(e - r.1) == 10 * Pow10(e - 1 - r.1);
      assert m == 10 * (m / 10);
      r
    else (m, e)
  }

  lemma {:induction false} Pow10Add(a: nat, b: nat)
    ensures Pow10(a + b) == Pow10(a) * Pow10(b)
    decreases a
  {
    if a > 0 {
      Pow10Add(a - 1, b);
      assert Pow10(a + b) == 10 * Pow10(a - 1 + b);
    }
  }

  lemma Cancel(x: int, y: int, c: int)
    requires c > 0 && x * c == y * c
    ensures x == y
  {
    assert (x - y) * c == x * c - y * c;
  }

  /** A number written with d more places than another is the other
      times 10^d. */
  lemma Scale(a: int, d: nat, x: nat, b: int)
    requires a * Pow10(d + x) == b * Pow10(x)
    ensures b == a * Pow10(d)
  {
    Pow10Add(d, x);
    var p, q := Pow10(d), Pow10(x);
    assert a * (p * q) == (a * p) * q;
    Cancel(a * p, b, q);
  }

  /** A multiple of 10^d, d > 0, ends in a zero digit. */
  lemma TenDivides(a: int, d: nat)
    requires d > 0
    ensures (a * Pow10(d)) % 10 == 0
  {
    var q := Pow10(d - 1);
    assert a * Pow10(d) == (a * q) * 10;
  }

  /** Two numbers in normal form that are equal are written the same way. */
  lemma NormalUnique(a: int, x: nat, b: int, y: nat)
    requires x == 0 || a % 10 != 0
    requires y == 0 || b % 10 != 0
    requires a * Pow10(y) == b * Pow10(x)
    ensures a == b && x == y
  {
    if x < y {
      assert y == (y - x) + x;
      Scale(a, y - x, x, b);
      TenDivides(a, y - x);
    } else if y < x {
      assert x == (x - y) + y;
      Scale(b, x - y, y, a);
      TenDivides(b, x - y);
    } else {
      Cancel(a, b, Pow10(x));
    }
  }

  lemma Rearrange(a: int, p: int, q: int, r: int)
    ensures (a * p) * (q * r) == (a * r) * (p * q)
  {
  }

  /** m / 10^e against another decimal, both written in normal form with
      the common factor k = 10^(e1 - x) * 10^(e2 - y) taken out. */
  lemma Factor(m: int, a: int, p: int, q: int, r: int, pe: int)
    requires m == a * p && pe == q * r
    ensures m * pe == (a * r) * (p * q)
  {
    Rearrange(a, p, q, r);
  }

  /** Two decimals have the same normal form exactly when Python finds
      them equal. */
  lemma NormSame(m1: int, e1: nat, m2: int, e2: nat)
    ensures Norm(m1, e1) == Norm(m2, e2) <==> NumEq(Finite(m1, e1), Finite(m2, e2))
  {
    var (a, x) := Norm(m1, e1);
    var (b, y) := Norm(m2, e2);
    var p1, p2 := Pow10(e1 - x), Pow10(e2 - y);
    Pow10Add(e1 - x, x);
    Pow10Add(e2 - y, y);
    Factor(m1, a, p1, p2, Pow10(y), Pow10(e2));
    Factor(m2, b, p2, p1, Pow10(x), Pow10(e1));
    assert p2 * p1 == p1 * p2;
    if m1 * Pow10(e2) == m2 * Pow10(e1) {
      Cancel(a * Pow10(y), b * Pow10(x), p1 * p2);
      NormalUnique(a, x, b, y);
    }
  }
}
