// Integer facts shared by the two topology generators: powers, and the
// uniqueness of Euclidean division that every positional decoding rests on.
module Arith {

  /** b^e for a natural exponent (Python's `b ** e` on ints). */
  function Pow(b: nat, e: nat): (p: nat)
    ensures b >= 1 ==> p >= 1
  {
    if e == 0 then 1 else b * Pow(b, e - 1)
  }

  /** Quotient and remainder of naturals, typed as naturals. */
  function Div(x: nat, d: nat): nat
    requires d >= 1
  {
    x / d
  }

  function Mod(x: nat, d: nat): nat
    requires d >= 1
  {
    x % d
  }

  /** Python's floor division `x // d` (Dafny's `/` is Euclidean, which
      agrees with it only for a positive divisor). */
  function FloorDiv(x: int, d: int): int
    requires d != 0
  {
    if d > 0 then x / d else (-x) / (-d)
  }

  /** Python's `x % d`: it takes the sign of the divisor. */
  function FloorMod(x: int, d: int): int
    requires d != 0
  {
    x - d * FloorDiv(x, d)
  }

  /** The quotient is the floor of x / d and the remainder, which x leaves
      over d times it, has the sign of d. */
  lemma FloorDivMod(x: int, d: int)
    requires d != 0
    ensures var q := FloorDiv(x, d);
            if d > 0 then q * d <= x < q * d + d else q * d + d < x <= q * d
    ensures x == d * FloorDiv(x, d) + FloorMod(x, d)
    ensures d > 0 ==> 0 <= FloorMod(x, d) < d
    ensures d < 0 ==> d < FloorMod(x, d) <= 0
  {
  }

  lemma {:induction false} PowAdd(b: nat, e1: nat, e2: nat)
    ensures Pow(b, e1 + e2) == Pow(b, e1) * Pow(b, e2)
  {
    if e1 > 0 {
      PowAdd(b, e1 - 1, e2);
      assert Pow(b, e1 + e2) == b * Pow(b, e1 - 1 + e2);
      MulAssoc(b, Pow(b, e1 - 1), Pow(b, e2));
    }
  }

  lemma MulAssoc(x: int, y: int, z: int)
    ensures x * (y * z) == (x * y) * z
  {
  }

  lemma MulAtLeast(x: int, y: int)
    requires x >= 1 && y >= 1
    ensures x * y >= y && x * y >= x
  {
  }

  /** If j is written as q*d + t with 0 <= t < d, then q and t are j's
      quotient and remainder. */
  lemma DivModUnique(j: int, d: int, q: int, t: int)
    requires d > 0 && 0 <= t < d && j == q * d + t
    ensures j / d == q && j % d == t
  {
    var q0, t0 := j / d, j % d;
    assert j == q0 * d + t0;
    assert (q - q0) * d == t0 - t;
    if q > q0 {
      MulAtLeast(q - q0, d);
    } else if q < q0 {
      MulAtLeast(q0 - q, d);
    }
  }

  /** Dividing by a and then by b is dividing by a*b. */
  lemma DivDiv(x: int, a: int, b: int)
    requires x >= 0 && a > 0 && b > 0
    ensures x / a / b == x / (a * b)
    ensures (x / a) % b * a + x % a < a * b
  {
    var q1, r1 := x / a, x % a;
    var q2, r2 := q1 / b, q1 % b;
    assert r2 * a + r1 < a * b by {
      assert r2 <= b - 1;
      assert r2 * a <= (b - 1) * a;
    }
    assert x == q2 * (a * b) + (r2 * a + r1) by {
      assert x == q1 * a + r1;
      assert q1 == q2 * b + r2;
      assert q1 * a == q2 * b * a + r2 * a;
    }
    DivModUnique(x, a * b, q2, r2 * a + r1);
  }

  /** A number below q*d has a quotient by d below q. */
  lemma DivBelow(x: int, d: int, q: int)
    requires 0 <= x < q * d && d > 0
    ensures 0 <= x / d < q
  {
  }

  lemma MulSub(x: int, y: int, a: int)
    ensures y * a - x * a == (y - x) * a
  {
  }

  lemma MulLess(x: int, y: int, a: int)
    requires x < y && a >= 1
    ensures x * a < y * a
  {
    MulAtLeast(y - x, a);
    MulSub(x, y, a);
  }

  /** One step of a range with stride a, counted by t out of n. */
  lemma Stride(t: int, n: int, a: int)
    requires a >= 1 && 0 <= t
    ensures (t + 1) * a == t * a + a
    ensures t < n <==> t * a < n * a
  {
    if t < n {
      MulLess(t, n, a);
    } else if n < t {
      MulLess(n, t, a);
    }
  }

  /** (x + 1) * y * z, expanded. */
  lemma MulAdd(x: int, y: int, z: int)
    ensures (x * y + y) * z == x * y * z + y * z
    ensures (x + 1) * y * z == x * y * z + y * z
  {
  }

  /** The stride decoding: for a base b = a * n and any h below r * b,
      the pair (h % a + h / b * a, h / a % n) is a slot i < r * a, t < n
      that the stride wiring i % a + i / a * b + t * a maps back to h. */
  lemma StrideCover(h: nat, a: nat, n: nat, r: nat)
    requires a >= 1 && n >= 1 && h < r * (n * a)
    ensures h % a + h / (n * a) * a < r * a
    ensures h / a % n < n
    ensures var i := h % a + h / (n * a) * a;
            i % a + i / a * (n * a) + h / a % n * a == h
  {
    var b := n * a;
    var q, rem, t := h / b, h % a, h / a % n;
    DivBelow(h, b, r);
    var i := rem + q * a;
    assert i < r * a by {
      MulMono(q, r - 1, a);
      MulSub(1, r, a);
    }
    assert i % a == rem && i / a == q by { DivModUnique(i, a, q, rem); }
    SlotCompose(h, a, n);
  }

  /** Every h >= 0 splits as h % a + h / (n * a) * (n * a) + h / a % n * a. */
  lemma SlotCompose(h: int, a: int, n: int)
    requires h >= 0 && a >= 1 && n >= 1
    ensures h == h % a + h / (n * a) * (n * a) + h / a % n * a
  {
    var q, rem, t := h / (n * a), h % a, h / a % n;
    assert h / a == q * n + t by {
      DivDiv(h, a, n);
      assert a * n == n * a;
    }
    assert h == (q * n + t) * a + rem;
    Recompose(rem, q, t, a, n);
  }

  /** The stride wiring is injective: slot (i, t) with t < n is recovered
      from the position it maps to. */
  lemma StrideUnique(i: nat, t: nat, a: nat, n: nat)
    requires a >= 1 && n >= 1 && t < n
    ensures var h := i % a + i / a * (n * a) + t * a;
            h % a + h / (n * a) * a == i && h / a % n == t
  {
    var rem, q := i % a, i / a;
    SlotDecode(rem + q * (n * a) + t * a, rem, q, t, a, n);
  }

  /** Position rem + q * (n * a) + t * a, with rem < a and t < n, decoded. */
  lemma SlotDecode(h: int, rem: int, q: int, t: int, a: int, n: int)
    requires a >= 1 && n >= 1 && 0 <= rem < a && 0 <= t < n && q >= 0
    requires h == rem + q * (n * a) + t * a
    ensures h % a == rem && h / (n * a) == q && h / a % n == t
  {
    assert h == (q * n + t) * a + rem by { Recompose(rem, q, t, a, n); }
    assert h / a == q * n + t && h % a == rem by {
      DivModUnique(h, a, q * n + t, rem);
    }
    assert h / a / n == q && h / a % n == t by {
      DivModUnique(h / a, n, q, t);
    }
    assert h / (n * a) == q by {
      DivDiv(h, a, n);
      assert a * n == n * a;
    }
  }

  /** The stride decoding commutes with a shift by whole blocks: adding
      b blocks of c * a to i adds b blocks of c * big to its image. */
  lemma BlockShift(b: nat, c: nat, a: nat, big: nat, i: nat, t: nat)
    requires a >= 1
    ensures var j := b * (c * a) + i;
            j % a + j / a * big + t * a == b * (c * big) + (i % a + i / a * big + t * a)
  {
    var j := b * (c * a) + i;
    MulSign(b, c);
    MulSign(i / a, big);
    assert j == (b * c + i / a) * a + i % a by {
      MulAssoc(b, c, a);
      MulDist(a, b * c, i / a);
    }
    assert j / a == b * c + i / a && j % a == i % a by {
      DivModUnique(j, a, b * c + i / a, i % a);
    }
    assert (b * c + i / a) * big == b * (c * big) + i / a * big by {
      MulDist(big, b * c, i / a);
      MulAssoc(b, c, big);
    }
  }

  lemma Recompose(rem: int, q: int, t: int, a: int, n: int)
    ensures rem + q * (n * a) + t * a == (q * n + t) * a + rem
  {
    MulAssoc(q, n, a);
  }

  lemma MulDist(x: int, y: int, z: int)
    ensures x * (y + z) == x * y + x * z
  {
  }

  lemma MulSign(x: int, y: int)
    requires x >= 0 && y >= 0
    ensures x * y >= 0
  {
  }

  lemma MulMono(x: int, x': int, y: int)
    requires x <= x' && y >= 0
    ensures x * y <= x' * y
  {
  }

  lemma MulPred(x: nat, y: nat)
    requires x > 0
    ensures (x - 1) * y + y == x * y
  {
  }

  lemma MulRotate(x: int, y: int, z: int)
    ensures x * (y * z) == z * (x * y)
  {
  }

  /** The stride wiring stays below r * (n * a) for a slot i < r * a, t < n. */
  lemma StrideBound(i: nat, t: nat, a: nat, n: nat, r: nat)
    requires a >= 1 && n >= 1 && i < r * a && t < n
    ensures i % a + i / a * (n * a) + t * a < r * (n * a)
  {
    var q := i / a;
    DivBelow(i, a, r);
    MulMono(q, r - 1, n * a);
    MulPred(r, n * a);
    MulMono(t, n - 1, a);
    MulPred(n, a);
  }

  /** j lies in the d-block number s exactly when its quotient by d is s. */
  lemma DivRange(j: nat, d: nat, s: nat)
    requires d >= 1
    ensures j / d == s <==> s * d <= j < s * d + d
  {
    if s * d <= j < s * d + d {
      DivModUnique(j, d, s, j - s * d);
    }
  }

  lemma DivModInjective(x: nat, y: nat, d: nat)
    requires d >= 1 && x != y
    ensures x / d != y / d || x % d != y % d
  {
  }

  lemma DivMod(x: nat, d: nat)
    requires d >= 1
    ensures x == Div(x, d) * d + Mod(x, d)
  {
  }

  /** For a positive divisor, Python's floor operators are Dafny's. */
  lemma FloorPositive(x: int, d: int)
    requires d > 0
    ensures FloorDiv(x, d) == x / d && FloorMod(x, d) == x % d
  {
  }

  /** Python's `x % d == 0` is divisibility, as Dafny's `x % d == 0` is. */
  lemma FloorModZero(x: int, d: int)
    requires d != 0
    ensures FloorMod(x, d) == 0 <==> x % d == 0
  {
    if d < 0 {
      var q, t := x / d, x % d;
      assert x == q * d + t && 0 <= t < -d;
      if t == 0 {
        DivModUnique(-x, -d, q, 0);
      } else {
        var Q := FloorDiv(x, d);
        if FloorMod(x, d) == 0 {
          assert (Q - q) * d == t;
          if Q > q {
            MulAtLeast(Q - q, -d);
          } else if Q < q {
            MulAtLeast(q - Q, -d);
          }
        }
      }
    }
  }

  /** A positive number floor-divided by a negative one is negative. */
  lemma FloorNegative(x: int, d: int)
    requires x > 0 && d < 0
    ensures FloorDiv(x, d) < 0
  {
  }

  /** A two-digit number in base n stays below n * n. */
  lemma PairBound(x: nat, y: nat, n: nat)
    requires x < n && y < n
    ensures 0 <= x * n && x * n + y < n * n
  {
    MulMono(0, x, n);
    MulMono(x, n - 1, n);
    MulPred(n, n);
  }

  /** Offset i into the run of g blocks of k that starts at block x*g:
      block x*g + i/k, slot i%k, and that block lies in group x. */
  lemma RunDecode(x: nat, g: nat, k: nat, i: nat)
    requires g >= 1 && k >= 1 && i < g * k
    ensures (x * g * k + i) / k == x * g + i / k && (x * g * k + i) % k == i % k
    ensures (x * g + i / k) / g == x
  {
    assert x * g * k + i == (x * g + i / k) * k + i % k by {
      MulDist(k, x * g, i / k);
    }
    DivModUnique(x * g * k + i, k, x * g + i / k, i % k);
    DivBelow(i, k, g);
    DivModUnique(x * g + i / k, g, x, i / k);
  }

  lemma {:induction false} PowOne(e: nat)
    ensures Pow(1, e) == 1
  {
    if e > 0 {
      PowOne(e - 1);
    }
  }

  /** A base of at least 2 raised to at least 2 exceeds the base. */
  lemma {:induction false} PowGrows(b: nat, e: nat)
    requires b >= 2 && e >= 2
    ensures Pow(b, e) > b
  {
    if e == 2 {
      assert Pow(b, 2) == b * b;
      MulLess(1, b, b);
    } else {
      PowGrows(b, e - 1);
      MulLess(1, b, Pow(b, e - 1));
    }
  }

  /** b^e equals b exactly for e == 1, or for the base 1. */
  lemma PowIsBase(b: nat, e: nat)
    requires b >= 1
    ensures Pow(b, e) == b <==> e == 1 || b == 1
  {
    if b == 1 {
      PowOne(e);
    } else if e >= 2 {
      PowGrows(b, e);
    }
  }

  /** Quotient and remainder determine the number: q*d + t is injective in
      (q, t) for 0 <= t < d. */
  lemma PairUnique(q: int, t: int, q': int, t': int, d: int)
    requires d > 0 && 0 <= t < d && 0 <= t' < d && q * d + t == q' * d + t'
    ensures q == q' && t == t'
  {
    DivModUnique(q * d + t, d, q, t);
    DivModUnique(q * d + t, d, q', t');
  }

  /** Slot t of block p, for p, t < k, lies in the k*k square and decodes
      back to (p, t). */
  lemma SlotBelow(p: nat, t: nat, k: nat)
    requires p < k && t < k
    ensures p * k + t < k * k
    ensures (p * k + t) / k == p && (p * k + t) % k == t
  {
    MulMono(p + 1, k, k);
    MulPred(p + 1, k);
    DivModUnique(p * k + t, k, p, t);
  }
}
