/** The smaller of two numbers, and facts about products that the solver is
    better told than left to find. */
module Arith {
  function Min(a: int, b: int): int {
    if a < b then a else b
  }

  lemma Nonneg(a: int, b: int)
    requires 0 <= a && 0 <= b
    ensures 0 <= a * b
  {
  }

  lemma AbsFromSquares(a: int, b: int)
    requires 0 <= b && a * a <= b * b
    ensures -b <= a <= b
  {
    if b < a {
      Times(b, a, b);
      Times(b + 1, a, a);
    } else if b < -a {
      Times(b, -a, b);
      Times(b + 1, -a, -a);
    }
  }

  /** An inequality times a non-negative number. */
  lemma Times(a: int, b: int, c: int)
    requires a <= b && 0 <= c
    ensures a * c <= b * c
  {
    Nonneg(b - a, c);
  }

  lemma TimesAbs(a: int, b: int, p: int, q: int)
    requires -p <= a <= p && -q <= b <= q
    ensures a * b <= p * q
  {
    if 0 <= a {
      Times(b, q, a);
      Times(a, p, q);
    } else {
      Times(-b, q, -a);
      Times(-a, p, q);
    }
  }

  lemma Square(a: int)
    ensures 0 <= a * a
  {
  }

  lemma OutOfRange(a: int, l: int)
    requires 0 <= l && (a <= -l || l <= a)
    ensures l * l <= a * a
  {
    if l <= a {
      Product(l, a, l, a);
    } else {
      Product(l, -a, l, -a);
    }
  }

  lemma Product(a: int, a': int, b: int, b': int)
    requires 0 <= a <= a' && 0 <= b <= b'
    ensures a * b <= a' * b'
  {
    Times(a, a', b);
    Times(b, b', a');
  }

  lemma Cancel(g: int, a: int, b: int)
    requires 0 < g && g * a <= g * b
    ensures a <= b
  {
    if b < a {
      Times(b + 1, a, g);
    }
  }
}
