/** Shapes shared by all constraint sets: a constraint is a product of factors that has to be zero
    in the field, which for a prime field means that one of the factors is zero. */
module Air {
  import opened Goldilocks

  predicate Zero2(a: int, b: int)
    ensures Zero2(a, b) <==> Vanishes(a) || Vanishes(b)
  {
    ZeroProduct(a, b);
    Vanishes(a * b)
  }

  predicate Zero3(a: int, b: int, c: int)
    ensures Zero3(a, b, c) <==> Vanishes(a) || Vanishes(b) || Vanishes(c)
  {
    ZeroProduct(a, b);
    ZeroProduct(a * b, c);
    Vanishes(a * b * c)
  }

  predicate Zero4(a: int, b: int, c: int, d: int)
    ensures Zero4(a, b, c, d) <==> Vanishes(a) || Vanishes(b) || Vanishes(c) || Vanishes(d)
  {
    var _ := Zero3(a, b, c);
    ZeroProduct(a * b * c, d);
    Vanishes(a * b * c * d)
  }

  predicate Zero5(a: int, b: int, c: int, d: int, e: int)
    ensures Zero5(a, b, c, d, e) <==>
            Vanishes(a) || Vanishes(b) || Vanishes(c) || Vanishes(d) || Vanishes(e)
  {
    var _ := Zero4(a, b, c, d);
    ZeroProduct(a * b * c * d, e);
    Vanishes(a * b * c * d * e)
  }

  predicate Zero6(a: int, b: int, c: int, d: int, e: int, f: int)
    ensures Zero6(a, b, c, d, e, f) <==>
            Vanishes(a) || Vanishes(b) || Vanishes(c) || Vanishes(d) || Vanishes(e) || Vanishes(f)
  {
    var _ := Zero5(a, b, c, d, e);
    ZeroProduct(a * b * c * d * e, f);
    Vanishes(a * b * c * d * e * f)
  }

  /** Equality in the field. */
  predicate Same(a: int, b: int) { Vanishes(a - b) }

  lemma SameTransitive(a: int, b: int, c: int)
    requires Same(a, b)
    ensures Same(b, a)
    ensures Same(b, c) <==> Same(a, c)
  {
  }

  /** Canonical elements that agree in the field are equal. */
  lemma SameFelt(a: Felt, b: Felt)
    ensures Vanishes(a - b) <==> a == b
  {
  }
}
