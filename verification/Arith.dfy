/**
 Natural-number arithmetic with symbolic operands. `Mul`, `Div` and `Mod` are `*`, `/` and `%`
 (`MulIsProduct`, `DivModAreOperators`), defined by repeated addition and subtraction so that proofs
 about epochs and ring indices use the lemmas below and not the solver's nonlinear arithmetic.
 */
module Arith {
  function Max(a: int, b: int): int { if a >= b then a else b }
  function Min(a: int, b: int): int { if a <= b then a else b }

  function Mul(a: nat, b: nat): nat {
    if a == 0 then 0 else b + Mul(a - 1, b)
  }

  lemma {:induction false} MulIsProduct(a: nat, b: nat)
    ensures Mul(a, b) == a * b
  {
    if a > 0 {
      MulIsProduct(a - 1, b);
      assert (a - 1) * b == a * b - b;
    }
  }

  function Div(a: nat, d: nat): (q: nat)
    requires d > 0
    ensures q <= a
  {
    if a < d then 0 else 1 + Div(a - d, d)
  }

  function Mod(a: nat, d: nat): (r: nat)
    requires d > 0
    ensures r < d && r <= a
  {
    if a < d then a else Mod(a - d, d)
  }

  lemma MulMonotone(a: int, b: int, d: int)
    requires a <= b && d >= 0
    ensures a * d <= b * d
  {
    assert (b - a) * d >= 0;
  }

  lemma Distribute(a: int, b: int, d: int)
    ensures (a + b) * d == a * d + b * d
  {
  }

  lemma MulStrict(a: int, b: int, d: int)
    requires a < b && d > 0
    ensures a * d + d <= b * d
  {
    MulMonotone(a + 1, b, d);
    assert (a + 1) * d == a * d + d;
  }

  lemma {:induction false} DivModLaw(a: nat, d: nat)
    requires d > 0
    ensures a == Div(a, d) * d + Mod(a, d)
  {
    if a >= d {
      DivModLaw(a - d, d);
      assert (1 + Div(a - d, d)) * d == d + Div(a - d, d) * d;
    }
  }

  /** A quotient and a remainder in range are the quotient and the remainder. */
  lemma DivModUnique(a: nat, d: nat, q: int, r: int)
    requires d > 0 && a == q * d + r && 0 <= r < d
    ensures Div(a, d) == q && Mod(a, d) == r
  {
    DivModLaw(a, d);
    if q < Div(a, d) {
      MulStrict(q, Div(a, d), d);
    } else if Div(a, d) < q {
      MulStrict(Div(a, d), q, d);
    }
  }

  lemma DivModAreOperators(a: nat, d: nat)
    requires d > 0
    ensures Div(a, d) == a / d && Mod(a, d) == a % d
  {
    DivModUnique(a, d, a / d, a % d);
  }

  lemma DivMonotone(a: nat, b: nat, d: nat)
    requires d > 0 && a <= b
    ensures Div(a, d) <= Div(b, d)
  {
    DivModLaw(a, d);
    DivModLaw(b, d);
    if Div(b, d) < Div(a, d) {
      MulStrict(Div(b, d), Div(a, d), d);
    }
  }

  lemma DivAtLeast(a: nat, d: nat, k: nat)
    requires d > 0
    ensures k <= Div(a, d) <==> k * d <= a
  {
    DivModLaw(a, d);
    if k <= Div(a, d) {
      MulMonotone(k, Div(a, d), d);
    } else {
      MulStrict(Div(a, d), k, d);
    }
  }

  /** Two different numbers less than `d` apart have different remainders. */
  lemma ModDistinct(a: nat, b: nat, d: nat)
    requires d > 0 && a < b < a + d
    ensures Mod(a, d) != Mod(b, d)
  {
    DivModLaw(a, d);
    DivModLaw(b, d);
    if Mod(a, d) == Mod(b, d) {
      DivMonotone(a, b, d);
      if Div(a, d) < Div(b, d) {
        MulStrict(Div(a, d), Div(b, d), d);
      }
    }
  }

  lemma ModShift(a: nat, d: nat)
    requires d > 0
    ensures Mod(a + d, d) == Mod(a, d) && Div(a + d, d) == Div(a, d) + 1
  {
  }

  lemma DivOfMultiple(q: nat, r: nat, d: nat)
    requires d > 0 && r < d
    ensures Div(q * d + r, d) == q && Mod(q * d + r, d) == r
  {
    MulMonotone(0, q, d);
    DivModUnique(q * d + r, d, q, r);
  }

  lemma DivOfSum(a: nat, b: nat, d: nat)
    requires d > 0
    ensures Div(a, d) + Div(b, d) <= Div(a + b, d) <= Div(a, d) + Div(b, d) + 1
  {
    DivModLaw(a, d);
    DivModLaw(b, d);
    var q, r := Div(a, d) + Div(b, d), Mod(a, d) + Mod(b, d);
    Distribute(Div(a, d), Div(b, d), d);
    if r < d {
      DivModUnique(a + b, d, q, r);
    } else {
      Distribute(q, 1, d);
      DivModUnique(a + b, d, q + 1, r - d);
    }
  }
}
