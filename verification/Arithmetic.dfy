/** Division and powers of two: the few non-linear facts the models use. */
module Arithmetic {

  function Pow2(n: nat): (r: nat)
    ensures r >= 1
  {
    if n == 0 then 1 else 2 * Pow2(n - 1)
  }

  lemma MulGrows(d: int, b: nat)
    requires d >= 1
    ensures d * b >= b
  {
  }

  lemma DivUnique(a: int, b: nat, q: int, r: nat)
    requires b >= 1 && a == b * q + r && r < b
    ensures a / b == q && a % b == r
  {
    var q', r' := a / b, a % b;
    assert a == b * q' + r';
    assert (q' - q) * b == r - r' by {
      assert (q' - q) * b == q' * b - q * b;
    }
    if q' > q {
      MulGrows(q' - q, b);
    } else if q' < q {
      MulGrows(q - q', b);
    }
  }

  lemma DivDiv(a: int, p: nat)
    requires p >= 1
    ensures a / p / 2 == a / (2 * p)
  {
    var q, r := a / p, a % p;
    var s, t := q / 2, q % 2;
    var m := if t == 0 then r else p + r;
    assert a == (2 * p) * s + m by {
      assert a == p * q + r;
      assert q == 2 * s + t;
      assert p * q == p * (2 * s) + p * t;
      assert p * (2 * s) == (2 * p) * s;
    }
    DivUnique(a, 2 * p, s, m);
  }

  lemma {:induction false} Pow2Add(a: nat, b: nat)
    ensures Pow2(a + b) == Pow2(a) * Pow2(b)
  {
    if a > 0 {
      Pow2Add(a - 1, b);
      assert Pow2(a) * Pow2(b) == 2 * (Pow2(a - 1) * Pow2(b));
    }
  }

  lemma HalfThenDiv(a: int, p: nat)
    requires p >= 1
    ensures a / 2 / p == a / (2 * p)
  {
    var q, r := a / 2 / p, a / 2 % p;
    var m := 2 * r + a % 2;
    assert a == (2 * p) * q + m by {
      assert a / 2 == p * q + r;
      assert 2 * (p * q) == (2 * p) * q;
    }
    DivUnique(a, 2 * p, q, m);
  }

  lemma ModDouble(a: nat, p: nat)
    requires p >= 1
    ensures a % (2 * p) == a / p % 2 * p + a % p
  {
    var q, r := a / p, a % p;
    var s, t := q / 2, q % 2;
    var m := if t == 0 then r else p + r;
    assert a == (2 * p) * s + m by {
      assert a == p * q + r;
      assert q == 2 * s + t;
      assert p * q == p * (2 * s) + p * t;
      assert p * (2 * s) == (2 * p) * s;
    }
    DivUnique(a, 2 * p, s, m);
  }

  lemma ModSmall(a: nat, p: nat)
    requires a < p
    ensures a % p == a
  {
  }

  lemma Distribute(q: nat, bit: nat, p: nat)
    ensures (2 * q + bit) * p == q * (2 * p) + bit * p
  {
  }
}
