/** Division and remainder, for wheels of any size. */
module Arith {

  lemma SmallMultiple(r: int, n: int, d: int)
    requires r > 0 && r * n == d && -r < d < r
    ensures n == 0
  {
  }

  lemma ModUnique(x: int, a: int, b: int, r: int)
    requires r > 0 && x == r * a + b && 0 <= b < r
    ensures x % r == b
  {
    assert r * (a - x / r) == r * a - r * (x / r);
    SmallMultiple(r, a - x / r, x % r - b);
  }

  lemma DivMul(t: nat, u: nat)
    requires u > 0
    ensures t / u * u + t % u == t
  {
  }

  lemma FullRevolution(q: nat, r: nat)
    requires r > 0
    ensures (q + r) % r == q % r
  {
    ModUnique(q + r, q / r + 1, q % r, r);
  }

  lemma Distribute(a: int, b: int, c: int)
    ensures (a + b) * c == a * c + c * b
  {
  }

  lemma SplitMod(t: nat, u: nat, r: nat)
    requires u > 0 && r > 0 && u * r > 0
    ensures (t / u) % r * u + t % u == t % (u * r)
  {
    var q := t / u;
    assert q == r * (q / r) + q % r;
    assert u * q == u * (r * (q / r)) + u * (q % r);
    assert u * (r * (q / r)) == (u * r) * (q / r);
    assert u * (q % r) + t % u < u * r by {
      assert u * (q % r) <= u * (r - 1);
    }
    ModUnique(t, q / r, u * (q % r) + t % u, u * r);
  }

  lemma Multiples(q: nat, r: nat, g: nat)
    requires r > 0 && q % r == 0 && g < r
    ensures (q + g) % r == g
  {
    ModUnique(q + g, q / r, g, r);
  }

  lemma TurnAfter(k: nat, u: nat, t: nat)
    requires u > 0 && k > t / u
    ensures k * u > t
  {
    assert t < (t / u + 1) * u;
    assert (t / u + 1) * u <= k * u;
  }

  lemma Residue(k: int, q: int, g: int, r: int)
    requires r > 0 && q < k <= q + r && k % r == g
    ensures q + 1 + (g - q - 1) % r == k
  {
    var j := k / r;
    assert g - q - 1 == k - q - 1 - r * j;
    assert (g - q - 1) % r == k - q - 1 by { ModUnique(g - q - 1, -j, k - q - 1, r); }
  }

  lemma RegroupDigits(k: nat, u: nat, r: nat, g: nat)
    ensures k * (u * r) + g * u == (k * r + g) * u
  {
  }

  lemma MulMono(a: nat, b: nat, u: nat)
    requires a <= b
    ensures a * u <= b * u
  {
  }

  lemma DivIs(t: nat, u: nat, q: nat, b: nat)
    requires u > 0 && t == q * u + b && b < u
    ensures t / u == q && t % u == b
  {
    ModUnique(t, q, b, u);
    DivMul(t, u);
    SmallMultiple(u, t / u - q, 0);
  }

  lemma DivMono(a: nat, b: nat, u: nat)
    requires a <= b && u > 0
    ensures a / u <= b / u
  {
    DivMul(a, u);
    DivMul(b, u);
    if a / u > b / u {
      MulMono(b / u + 1, a / u, u);
      assert false;
    }
  }

  lemma Between(a: nat, b: nat, c: nat, u: nat)
    requires a <= b <= c && u > 0 && a / u == c / u
    ensures b / u == c / u
  {
    DivMono(a, b, u);
    DivMono(b, c, u);
  }

  lemma Reorder(k: nat, r: nat, u: nat)
    ensures k * r * u == u * r * k
  {
  }

  lemma Later(due: nat, i: nat, interval: nat)
    ensures due + interval + i * interval == due + (i + 1) * interval
  {
  }

  lemma DivLess(a: nat, b: nat)
    requires b > 0 && a >= b
    ensures a / b == (a - b) / b + 1
  {
    DivMul(a - b, b);
    Later((a - b) % b, (a - b) / b, b);
    DivIs(a, b, (a - b) / b + 1, (a - b) % b);
  }

  lemma AddMod(q: nat, r: nat)
    requires r > 1
    ensures (q + 1) % r == (q % r + 1) % r
  {
    DivMul(q, r);
    Distribute(1, q / r, r);
    if q % r == r - 1 {
      ModUnique(q + 1, q / r + 1, 0, r);
      ModUnique(r, 1, 0, r);
    } else {
      ModUnique(q + 1, q / r, q % r + 1, r);
      ModUnique(q % r + 1, 0, q % r + 1, r);
    }
  }

  /** Taking the lowest digit off a number. */
  lemma DigitOff(n: nat, k: nat, u: nat, r: nat, g: nat, b: nat)
    requires u > 0 && r > 0 && b < u && n == k * (u * r) + g * u + b
    ensures n / u == k * r + g && n % u == b
  {
    RegroupDigits(k, u, r, g);
    DivIs(n, u, k * r + g, b);
  }
}
