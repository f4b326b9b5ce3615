// What becomes of an integer that goes through a double, as every JSON number does.
module Doubles {
  type Int64 = n: int | -0x8000_0000_0000_0000 <= n <= 0x7FFF_FFFF_FFFF_FFFF

  const TWO_53: int := 0x20_0000_0000_0000
  const INT64_MAX: Int64 := 0x7FFF_FFFF_FFFF_FFFF

  // The distance of the doubles around n: the power of two that leaves 53 bits of n.
  function Spacing(n: nat): (u: nat)
    ensures u >= 1
  {
    if n < TWO_53 then 1 else 2 * Spacing(n / 2)
  }

  // The double nearest to n; halfway between two, the one that is an even multiple.
  function Nearest(n: nat): int {
    var u := Spacing(n);
    var q, r := n / u, n % u;
    if 2 * r < u || (2 * r == u && q % 2 == 0) then q * u else (q + 1) * u
  }

  predicate IsDouble(n: int) {
    if n < 0 then Nearest(-n) == -n else Nearest(n) == n
  }

  // The integer of a JSON number made from n: of its double, within 64 bits.
  function Carried(n: int): Int64 {
    var d: int := if n < 0 then -Nearest(-n) else Nearest(n);
    if d > INT64_MAX then INT64_MAX else if d < -INT64_MAX - 1 then -INT64_MAX - 1 else d
  }

  // Up to 2^53 nothing is lost; the next integer is.
  lemma UpTo53Bits(n: int)
    requires -TWO_53 <= n <= TWO_53
    ensures IsDouble(n) && Carried(n) == n
  {
    var m := if n < 0 then -n else n;
    if m == TWO_53 {
      assert Spacing(m / 2) == 1;
    }
  }

  lemma FirstLost()
    ensures Carried(TWO_53 + 1) == TWO_53
  {
    assert Spacing((TWO_53 + 1) / 2) == 1;
  }

  lemma {:induction false} LeadingBits(n: nat)
    ensures n / Spacing(n) < TWO_53 && (n >= TWO_53 ==> n / Spacing(n) >= TWO_53 / 2)
  {
    if n >= TWO_53 {
      LeadingBits(n / 2);
      var u := Spacing(n / 2);
      Halves(n, u);
      if n / 2 < TWO_53 {
        assert u == 1;
      }
    }
  }

  lemma Halves(n: nat, u: nat)
    requires u > 0
    ensures n / (2 * u) == n / 2 / u
  {
    var q := n / 2 / u;
    assert n / 2 == q * u + n / 2 % u;
    assert n == 2 * (n / 2) + n % 2;
    var r := 2 * (n / 2 % u) + n % 2;
    assert n == q * (2 * u) + r && 0 <= r < 2 * u;
    Quotient(n, 2 * u, q, r);
  }

  lemma Quotient(n: nat, m: nat, q: nat, r: nat)
    requires n == q * m + r && r < m
    ensures n / m == q && n % m == r
  {
    var q' := n / m;
    assert n == q' * m + n % m;
    assert (q' - q) * m == r - n % m;
    AtLeast(q' - q, m);
  }

  lemma AtLeast(d: int, m: int)
    requires m > 0
    ensures d >= 1 ==> d * m >= m
    ensures d <= -1 ==> d * m <= -m
  {
  }

  lemma {:induction false} SpacingAt(n: nat, q: nat)
    requires TWO_53 / 2 <= q <= TWO_53
    ensures Spacing(q * Spacing(n)) == if q == TWO_53 then 2 * Spacing(n) else Spacing(n)
  {
    if n < TWO_53 {
      if q == TWO_53 {
        assert Spacing(q / 2) == 1;
      }
    } else {
      var u := Spacing(n / 2);
      SpacingAt(n / 2, q);
      assert q * (2 * u) == 2 * (q * u);
      assert q * u >= q;
    }
  }

  // The nearest double is a double.
  lemma NearestIsDouble(n: nat)
    ensures IsDouble(Nearest(n))
  {
    if n < TWO_53 {
      UpTo53Bits(Nearest(n));
    } else {
      var u := Spacing(n);
      LeadingBits(n);
      var q := n / u;
      Multiple(q, n);
      Multiple(q + 1, n);
    }
  }

  // An integer that has been through one JSON number goes through the next as it is.
  lemma CarriedOnce(n: int)
    ensures Carried(Carried(n)) == Carried(n)
  {
    var m := if n < 0 then -n else n;
    NearestIsDouble(m);
    NearestPositive(m);
    NearestOfMax();
    NearestIsDouble(INT64_MAX);
    hide Nearest;
    if Nearest(m) == 0 {
      UpTo53Bits(0);
    }
  }

  lemma NearestOfMax()
    ensures Nearest(INT64_MAX) == INT64_MAX + 1
  {
    SpacingOfMax();
    hide Spacing;
  }

  lemma SpacingOfMax()
    ensures Spacing(INT64_MAX) == 1024
  {
    var n := INT64_MAX;
    assert Spacing(n / 1024) == 1;
    assert Spacing(n / 512) == 2;
    assert Spacing(n / 256) == 4;
    assert Spacing(n / 128) == 8;
    assert Spacing(n / 64) == 16;
    assert Spacing(n / 32) == 32;
    assert Spacing(n / 16) == 64;
    assert Spacing(n / 8) == 128;
    assert Spacing(n / 4) == 256;
    assert Spacing(n / 2) == 512;
  }

  lemma NearestPositive(n: nat)
    ensures Nearest(n) >= 0
  {
    var u := Spacing(n);
    Even(n / u, u);
  }

  lemma Multiple(q: nat, n: nat)
    requires TWO_53 / 2 <= q <= TWO_53
    ensures IsDouble(q * Spacing(n))
  {
    SpacingAt(n, q);
    hide Spacing, Nearest, IsDouble;
    if q == TWO_53 {
      Top(n);
    } else {
      Below(q, Spacing(n));
    }
  }

  lemma Top(n: nat)
    ensures IsDouble(TWO_53 * Spacing(n))
  {
    hide Spacing, IsDouble, Nearest;
    var u, v := Spacing(n), TWO_53 * Spacing(n);
    SpacingAt(n, TWO_53);
    Even(TWO_53 / 2, u);
    ExactMultiple(v, 2 * u, TWO_53 / 2);
  }

  lemma Even(h: nat, u: nat)
    ensures (2 * h) * u == h * (2 * u) >= 0
  {
  }

  lemma Below(q: nat, u: nat)
    requires Spacing(q * u) == u
    ensures IsDouble(q * u)
  {
    ExactMultiple(q * u, u, q);
  }

  lemma ExactMultiple(v: nat, u: nat, q: nat)
    requires Spacing(v) == u && v == q * u
    ensures IsDouble(v)
  {
    hide Spacing;
    Quotient(v, u, q, 0);
  }

  // ---------- the doubles themselves ----------

  function Pow2(k: nat): (p: nat)
    ensures p >= 1
  {
    if k == 0 then 1 else 2 * Pow2(k - 1)
  }

  lemma {:induction false} SpacingPower(n: nat) returns (j: nat)
    ensures Spacing(n) == Pow2(j) && (n < TWO_53 ==> j == 0)
  {
    j := 0;
    if n >= TWO_53 {
      var i := SpacingPower(n / 2);
      j := i + 1;
    }
  }

  lemma {:induction false} PowersAdd(a: nat, b: nat)
    ensures Pow2(a + b) == Pow2(a) * Pow2(b)
  {
    if a > 0 {
      PowersAdd(a - 1, b);
    }
  }

  // An integer of at most 53 bits times a power of two is a multiple of the spacing at n, or no
  // larger than the multiple below n.
  lemma MultipleOrBelow(n: nat, m: nat, k: nat) returns (c: nat)
    requires m <= TWO_53
    ensures m * Pow2(k) == c * Spacing(n) || m * Pow2(k) <= n / Spacing(n) * Spacing(n)
  {
    var j := SpacingPower(n);
    c := 0;
    if k >= j {
      PowersAdd(k - j, j);
      c := m * Pow2(k - j);
      assert m * (Pow2(k - j) * Pow2(j)) == m * Pow2(k - j) * Pow2(j);
    } else {
      LeadingBits(n);
      PowersAdd(j - 1 - k, k);
      var p, q := Pow2(k), n / Spacing(n);
      assert Pow2(j) == 2 * Pow2(j - 1) && Pow2(j - 1) >= p by {
        AtLeast1(Pow2(j - 1 - k), p);
      }
      Halving(m, p, Pow2(j), q);
    }
  }

  lemma AtLeast1(a: nat, p: nat)
    requires a >= 1
    ensures a * p >= p
  {
  }

  lemma Halving(m: nat, p: nat, u: nat, q: nat)
    requires m <= TWO_53 && 2 * p <= u && q >= TWO_53 / 2
    ensures m * p <= q * u
  {
    Times(TWO_53 - m, p);
    Times(u - 2 * p, TWO_53 / 2);
    Times(q - TWO_53 / 2, u);
    assert (TWO_53 - m) * p == TWO_53 * p - m * p;
    assert (q - TWO_53 / 2) * u == q * u - TWO_53 / 2 * u;
  }

  lemma Times(a: int, b: int)
    requires a >= 0 && b >= 0
    ensures a * b >= 0
  {
  }

  // The nearest double is one of those numbers, and none of them is nearer to n; when another one is
  // as near, it is an even multiple of the spacing.
  lemma NearestIsNearest(n: nat, m: nat, k: nat)
    requires m <= TWO_53
    ensures Distance(n, Nearest(n)) <= Distance(n, m * Pow2(k))
    ensures Distance(n, Nearest(n)) == Distance(n, m * Pow2(k)) && m * Pow2(k) != Nearest(n) ==>
              exists h: nat :: IsEvenMultiple(Nearest(n), h, Spacing(n))
  {
    hide Pow2, Spacing, Nearest, Distance, IsEvenMultiple;
    var c := MultipleOrBelow(n, m, k);
    var u, q, low, r := NearestParts(n);
    var d := m * Pow2(k);
    if d == c * u {
      FarMultiple(c, q, u);
    }
    assert d <= low || d == low + u || d >= low + 2 * u;
    NearerOfTwo(n, u, low, r, q % 2 == 0, Nearest(n), d);
    EvenOne(q, u);
  }

  lemma NearestParts(n: nat) returns (u: nat, q: nat, low: nat, r: nat)
    ensures u == Spacing(n) && low == q * u == n / Spacing(n) * Spacing(n)
    ensures n == low + r && r < u
    ensures Nearest(n) == if 2 * r < u || (2 * r == u && q % 2 == 0) then low else low + u
  {
    hide Spacing;
    u := Spacing(n);
    q, r := n / u, n % u;
    low := q * u;
    NextMultiple(q, u);
  }

  lemma NextMultiple(q: nat, u: nat)
    ensures (q + 1) * u == q * u + u
  {
  }

  lemma NearerOfTwo(n: nat, u: nat, low: nat, r: nat, even: bool, near: int, d: nat)
    requires n == low + r && r < u && near == (if 2 * r < u || (2 * r == u && even) then low else low + u)
    requires d <= low || d == low + u || d >= low + 2 * u
    ensures Distance(n, near) <= Distance(n, d)
    ensures Distance(n, near) == Distance(n, d) && d != near ==> 2 * r == u && near == if even then low else low + u
  {
  }

  lemma EvenOne(q: nat, u: nat)
    ensures if q % 2 == 0 then IsEvenMultiple(q * u, q / 2, u) else IsEvenMultiple(q * u + u, (q + 1) / 2, u)
  {
    if q % 2 == 0 {
      assert 2 * (q / 2) == q;
    } else {
      assert 2 * ((q + 1) / 2) == q + 1;
      NextMultiple(q, u);
    }
  }

  // Larger numbers do not become smaller ones.
  lemma NearestMonotone(n: nat, m: nat)
    requires n <= m
    ensures Nearest(n) <= Nearest(m)
  {
    hide Nearest, IsEvenMultiple, Pow2;
    var a, j := NearestIsOne(n);
    var b, k := NearestIsOne(m);
    NearestIsNearest(n, b, k);
    NearestIsNearest(m, a, j);
  }

  // What becomes of integers keeps their order, and the ends of 64 bits stay.
  lemma CarriedInOrder(n: int, m: int)
    requires n <= m
    ensures Carried(n) <= Carried(m)
  {
    hide Nearest, Spacing;
    NearestPositive(if n < 0 then -n else n);
    NearestPositive(if m < 0 then -m else m);
    if n >= 0 {
      NearestMonotone(n, m);
    } else if m < 0 {
      NearestMonotone(-m, -n);
    }
  }

  lemma CarriedEnds()
    ensures Carried(INT64_MAX) == INT64_MAX && Carried(-INT64_MAX - 1) == -INT64_MAX - 1
  {
    hide Nearest, Spacing;
    NearestOfMax();
    NearestOfEnd();
  }

  lemma NearestOfEnd()
    ensures Nearest(INT64_MAX + 1) == INT64_MAX + 1
  {
    NearestIsDouble(INT64_MAX);
    NearestOfMax();
    hide Nearest;
  }

  function Distance(a: int, b: int): nat {
    if a < b then b - a else a - b
  }

  ghost predicate IsEvenMultiple(n: int, h: nat, u: nat) {
    n == 2 * h * u
  }

  lemma FarMultiple(c: nat, q: nat, u: nat)
    ensures c * u <= q * u || c * u == q * u + u || c * u >= q * u + 2 * u
  {
    var e := c - q;
    assert c * u == q * u + e * u;
    if e <= 0 {
      NoMore(-e, u);
    } else if e >= 2 {
      NoMore(e - 2, u);
      assert e * u == (e - 2) * u + 2 * u;
    }
  }

  lemma NoMore(a: int, u: nat)
    requires a >= 0
    ensures a * u >= 0 && -a * u <= 0
  {
  }

  // And it is one of them.
  lemma NearestIsOne(n: nat) returns (m: nat, k: nat)
    ensures m <= TWO_53 && Nearest(n) == m * Pow2(k)
  {
    LeadingBits(n);
    k := SpacingPower(n);
    var u := Spacing(n);
    var q, r := n / u, n % u;
    m := if 2 * r < u || (2 * r == u && q % 2 == 0) then q else q + 1;
  }
}
