/**
 * Integer arithmetic shared by every model: machine limits and the four facts about floor and
 * ceiling division on which all fee and curve arguments rest.
 */
module Arith {

  const U64_MAX: nat := 0xFFFF_FFFF_FFFF_FFFF
  const U128_MAX: nat := 0xFFFF_FFFF_FFFF_FFFF_FFFF_FFFF_FFFF_FFFF

  function Min(a: int, b: int): int { if a < b then a else b }
  function Max(a: int, b: int): int { if a > b then a else b }

  /**
   * bigint.ts: floorDiv on non-negative operands, as the number of times `b` fits into `a`.  It is
   * the language's `/` (FloorDivIsDivision); proofs use it through its adjunction only.
   */
  function FloorDiv(a: nat, b: nat): nat
    requires b > 0
    decreases a
  {
    if a < b then 0 else 1 + FloorDiv(a - b, b)
  }

  /** bigint.ts: ceilDiv on non-negative operands. */
  function CeilDiv(a: nat, b: nat): nat
    requires b > 0
  {
    FloorDiv(a + b - 1, b)
  }

  function FloorMod(a: nat, b: nat): int
    requires b > 0
  {
    a - FloorDiv(a, b) * b
  }

  lemma MulMono(a: int, b: int, c: nat)
    requires a <= b
    ensures a * c <= b * c
  {
  }

  lemma MulMono2(a: nat, b: nat, c: nat, d: nat)
    requires a <= b && c <= d
    ensures a * c <= b * d
  {
    MulMono(a, b, c);
    MulMono(c, d, b);
  }

  lemma Distribute(a: int, b: int, c: int)
    ensures a * (b + c) == a * b + a * c
  {
  }

  lemma DistributeMinus(a: int, b: int, c: int)
    ensures a * (b - c) == a * b - a * c
  {
  }

  lemma SwapFactors(a: int, b: int, c: int)
    ensures a * b * c == a * c * b
    ensures a * b * c == a * (b * c)
  {
  }

  lemma {:induction false} FloorBounds(a: nat, b: nat)
    requires b > 0
    ensures FloorDiv(a, b) * b <= a < FloorDiv(a, b) * b + b
    ensures 0 <= FloorMod(a, b) < b
    decreases a
  {
    if a >= b {
      FloorBounds(a - b, b);
      Distribute(b, FloorDiv(a - b, b), 1);
    }
  }

  lemma FloorDivIsDivision(a: nat, b: nat)
    requires b > 0
    ensures FloorDiv(a, b) == a / b && FloorMod(a, b) == a % b
  {
    FloorBounds(a, b);
    QuotientUnique(a, b, a / b);
  }

  /** Floor division is the upper adjoint of multiplication. */
  lemma FloorAdjoint(a: nat, b: nat, q: nat)
    requires b > 0
    ensures FloorDiv(a, b) >= q <==> a >= q * b
  {
    var f := FloorDiv(a, b);
    FloorBounds(a, b);
    if f >= q {
      MulMono(q, f, b);
    } else {
      MulMono(f + 1, q, b);
      Distribute(b, f, 1);
    }
  }

  /** Ceiling division is the lower adjoint of multiplication. */
  lemma CeilAdjoint(a: nat, b: nat, q: nat)
    requires b > 0
    ensures CeilDiv(a, b) <= q <==> a <= q * b
  {
    FloorAdjoint(a + b - 1, b, q + 1);
    Distribute(b, q, 1);
  }

  lemma CeilBounds(a: nat, b: nat)
    requires b > 0
    ensures a <= CeilDiv(a, b) * b < a + b
  {
    FloorBounds(a + b - 1, b);
  }

  lemma CeilMono(a: nat, a': nat, b: nat)
    requires b > 0 && a <= a'
    ensures CeilDiv(a, b) <= CeilDiv(a', b)
  {
    CeilBounds(a', b);
    CeilAdjoint(a, b, CeilDiv(a', b));
  }

  lemma QuotientUnique(a: nat, b: nat, q: nat)
    requires b > 0 && q * b <= a < q * b + b
    ensures FloorDiv(a, b) == q
  {
    FloorAdjoint(a, b, q);
    FloorAdjoint(a, b, q + 1);
    Distribute(b, q, 1);
  }

  /** Positive factors cancel in a comparison. */
  lemma MulCancel(a: int, b: int, c: int)
    requires c > 0
    ensures a * c <= b * c <==> a <= b
    ensures a * c < b * c <==> a < b
  {
    if a <= b { MulMono(a, b, c); } else { MulMono(b + 1, a, c); }
    if a < b { MulMono(a + 1, b, c); } else { MulMono(b, a, c); }
  }
}
