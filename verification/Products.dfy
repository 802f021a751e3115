/**
 Signs of real products. Times puts a product under a name, so that a proof can
 hide it and reason about sums alone.
 */
module Products {
  function Times(a: real, b: real): real {
    a * b
  }

  lemma TimesIs(a: real, b: real)
    ensures Times(a, b) == a * b
  {
  }

  lemma ProductNonNegative(a: real, b: real)
    requires a >= 0.0 && b >= 0.0
    ensures a * b >= 0.0
  {
  }

  lemma ProductPositive(a: real, b: real)
    requires a > 0.0 && b > 0.0
    ensures a * b > 0.0
  {
  }

  lemma SquareNonNegative(a: real)
    ensures a * a >= 0.0
  {
  }

  lemma TimesNonNegative(a: real, b: real)
    requires a >= 0.0 && b >= 0.0
    ensures Times(a, b) >= 0.0
  {
  }

  lemma TimesPositive(a: real, b: real)
    requires a > 0.0 && b > 0.0
    ensures Times(a, b) > 0.0
  {
  }

  lemma Opposite(a: real)
    ensures Times(-a, -a) == Times(a, a)
  {
  }

  lemma SquareSigns(a: real)
    ensures Times(a, a) >= 0.0
  {
  }

  lemma SquarePositive(a: real)
    requires a != 0.0
    ensures Times(a, a) > 0.0
  {
    hide Times;
    if a > 0.0 {
      TimesPositive(a, a);
    } else {
      TimesPositive(-a, -a);
      Opposite(a);
    }
  }
}
