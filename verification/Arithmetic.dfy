/** Integer division: as C++ does it, and what the proofs need about Dafny's own. */
module Arithmetic {

  /** C++ integer division by a positive constant. */
  function TruncDiv(a: int, b: int): int
    requires b > 0
  {
    if a >= 0 then a / b else -((-a) / b)
  }

  /** C++ integer remainder by a positive constant. */
  function TruncMod(a: int, b: int): int
    requires b > 0
  {
    a - b * TruncDiv(a, b)
  }

  lemma Quotient(a: int, b: int, q: int)
    requires b > 0 && b * q <= a < b * q + b
    ensures a / b == q && a % b == a - b * q
  {
    var k := a / b;
    assert a == b * k + a % b;
    assert k < q ==> b * (k + 1) <= b * q;
    assert k > q ==> b * (q + 1) <= b * k;
  }

  lemma QuotientStep(y: int, b: int)
    requires b > 1
    ensures (y + 1) / b == y / b + if (y + 1) % b == 0 then 1 else 0
  {
    var q := y / b;
    assert y == b * q + y % b;
    if y % b == b - 1 {
      assert b * (q + 1) == b * q + b;
      Quotient(y + 1, b, q + 1);
    } else {
      Quotient(y + 1, b, q);
    }
  }

  /** On negative numbers truncation is one above the floor unless the division is exact. */
  lemma TruncIsCeiling(a: int, b: int)
    requires a < 0 < b
    ensures TruncDiv(a, b) == a / b + if a % b == 0 then 0 else 1
  {
    var q, r := a / b, a % b;
    assert a == b * q + r;
    if r == 0 {
      assert -a == b * (-q);
      Quotient(-a, b, -q);
    } else {
      assert -a == b * (-q - 1) + (b - r);
      Quotient(-a, b, -q - 1);
    }
  }
}
