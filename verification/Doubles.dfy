/**
 The whole part of the double nearest to a fraction, ties to even: 53 bits of precision.
 Below one half it is zero whatever the exponent, so small numbers need no lower bound.
 */
module Doubles {
  const B52: nat := 0x10_0000_0000_0000
  const B53: nat := 0x20_0000_0000_0000

  /** The whole number nearest to x / den. */
  function Nearest(x: nat, den: nat): nat
    requires den > 0
  {
    var q, r := x / den, x % den;
    if 2 * r < den || (2 * r == den && q % 2 == 0) then q else q + 1
  }

  /** From 2^53 on doubles are whole, and spaced by a power of two. */
  function Coarse(num: nat, den: nat): nat
    requires den > 0
    decreases if num > den then num - den else 0
  {
    if num < den * B53 then Nearest(num, den) else 2 * Coarse(num, 2 * den)
  }

  /** Below that they divide the unit in a power of two of parts. */
  function Fine(num: nat, den: nat): nat
    requires den > 0 && num < den * B53
    decreases den * B53 - num
  {
    if num >= den * B52 || 2 * num < den then Nearest(num, den) else Fine(2 * num, den) / 2
  }

  function WholeOfDouble(num: nat, den: nat): nat
    requires den > 0
  {
    if num >= den * B53 then Coarse(num, den) else Fine(num, den)
  }

  // ---------------------------------------------------------- what they compute

  lemma Grows(a: nat, b: nat, p: nat)
    requires a <= b
    ensures a * p <= b * p
  {}

  lemma Divided(x: nat, den: nat)
    requires den > 0
    ensures x == (x / den) * den + x % den && x % den < den
  {}

  /** Rounding reaches a whole number from half a unit below it, a tie only if it is even. */
  lemma NearestReaches(x: nat, den: nat, t: nat)
    requires den > 0
    ensures Nearest(x, den) >= t <==> 2 * x + den > 2 * (t * den) || (2 * x + den == 2 * (t * den) && t % 2 == 0)
  {
    var q, r := x / den, x % den;
    Divided(x, den);
    if q >= t {
      Grows(t, q, den);
    } else if q + 1 == t {
      assert t * den == q * den + den;
    } else {
      Grows(q + 2, t, den);
      assert (q + 2) * den == q * den + 2 * den;
    }
  }

  /** How many doubles there are to the unit around num / den, for rounding's purposes. */
  function Grid(num: nat, den: nat): (g: nat)
    requires den > 0 && num < den * B53
    ensures g == 1 || (g >= 2 && g % 2 == 0)
    decreases den * B53 - num
  {
    if num >= den * B52 || 2 * num < den then 1 else 2 * Grid(2 * num, den)
  }

  lemma QuotientReaches(a: nat, g: nat, t: nat)
    requires g > 0
    ensures a / g >= t <==> a >= t * g
  {
    Divided(a, g);
    if a / g >= t {
      Grows(t, a / g, g);
    } else {
      Grows(a / g + 1, t, g);
      assert (a / g + 1) * g == a / g * g + g;
    }
  }

  lemma Halved(a: nat, g: nat)
    requires g > 0
    ensures a / g / 2 == a / (2 * g)
  {
    var q := a / g;
    Divided(a, g);
    assert q == 2 * (q / 2) + q % 2;
    assert q * g == (q / 2) * (2 * g) + q % 2 * g;
    assert (q / 2 + 1) * (2 * g) == (q / 2) * (2 * g) + 2 * g;
    QuotientReaches(a, 2 * g, q / 2);
    QuotientReaches(a, 2 * g, q / 2 + 1);
  }

  /** The nearest multiple of the grid, and then its whole part. */
  lemma {:induction false} FineIs(num: nat, den: nat)
    requires den > 0 && num < den * B53
    ensures Fine(num, den) == Nearest(Grid(num, den) * num, den) / Grid(num, den)
    decreases den * B53 - num
  {
    hide Nearest;
    if num < den * B52 && 2 * num >= den {
      FineIs(2 * num, den);
      var g := Grid(2 * num, den);
      assert 2 * g * num == g * (2 * num);
      Halved(Nearest(g * (2 * num), den), g);
    }
  }

  /** Where the fraction is so close to the next whole number that the nearest double is that number. */
  predicate RoundsUp(num: nat, den: nat)
    requires den > 0 && num < den * B53
  {
    var n, g := num / den, Grid(num, den);
    var gap := (n + 1) * den - num;
    2 * (g * gap) < den || (2 * (g * gap) == den && (g > 1 || n % 2 == 1))
  }

  lemma FineReaches(num: nat, den: nat, t: nat)
    requires den > 0 && num < den * B53
    ensures var g := Grid(num, den);
            Fine(num, den) >= t <==>
            2 * (g * num) + den > 2 * (g * (t * den)) || (2 * (g * num) + den == 2 * (g * (t * den)) && (g > 1 || t % 2 == 0))
  {
    hide Fine, Nearest, Grid;
    var g := Grid(num, den);
    FineIs(num, den);
    QuotientReaches(Nearest(g * num, den), g, t);
    NearestReaches(g * num, den, t * g);
    assert t * g * den == g * (t * den);
    EvenProduct(t, g);
  }

  lemma EvenProduct(t: nat, g: nat)
    requires g == 1 || g % 2 == 0
    ensures t * g % 2 == 0 <==> (g > 1 || g == 0 || t % 2 == 0)
  {
    if g != 1 {
      assert t * g == 2 * (t * (g / 2));
    }
  }

  /** Below 2^53 the result is the whole part, or the next whole number exactly where that is the nearest double. */
  lemma WholeExactly(num: nat, den: nat)
    requires den > 0 && num < den * B53
    ensures WholeOfDouble(num, den) == num / den + if RoundsUp(num, den) then 1 else 0
  {
    hide Fine, Grid, Nearest;
    var n, g := num / den, Grid(num, den);
    Divided(num, den);
    FineReaches(num, den, n);
    FineReaches(num, den, n + 1);
    FineReaches(num, den, n + 2);
    Spread(num, den, n, g);
  }

  lemma Spread(num: nat, den: nat, n: nat, g: nat)
    requires den > 0 && g > 0 && n * den <= num < n * den + den
    ensures g * num >= g * (n * den)
    ensures 2 * (g * num) + den < 2 * (g * ((n + 2) * den))
    ensures g * ((n + 1) * den - num) == g * ((n + 1) * den) - g * num
  {
    Grows(n * den, num, g);
    assert (n + 2) * den == n * den + 2 * den;
    Grows(num, n * den + den, g);
    assert g * ((n + 2) * den) == g * (n * den + den) + g * den;
    Grows(1, g, den);
  }

  /** A whole number below 2^53 is a double. */
  lemma WholeStays(n: nat)
    requires n < B53
    ensures WholeOfDouble(n, 1) == n
  {
    hide Grid;
    WholeExactly(n, 1);
    var g := Grid(n, 1);
    assert g * ((n + 1) * 1 - n) == g;
  }

  /** From 2^53 on the result is the nearest of the multiples of a power of two that keep 53 bits. */
  lemma {:induction false} CoarseIs(num: nat, den: nat) returns (g: nat)
    requires den > 0 && num >= den * B52
    ensures g > 0 && g * den * B52 <= num < g * den * B53
    ensures Coarse(num, den) == g * Nearest(num, g * den)
    decreases if num > den then num - den else 0
  {
    hide Nearest;
    if num < den * B53 {
      g := 1;
    } else {
      var h := CoarseIs(num, 2 * den);
      g := 2 * h;
      assert g * den == h * (2 * den);
    }
  }
}
