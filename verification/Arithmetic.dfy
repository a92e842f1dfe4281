/** Powers of two and the C++ integer operators that differ from Dafny's for negative operands. */
module Arithmetic {

  function Pow2(n: nat): (p: nat)
    ensures p >= 1
  {
    if n == 0 then 1 else 2 * Pow2(n - 1)
  }

  function Abs(x: int): nat
  {
    if x < 0 then -x else x
  }

  /** x / y */
  function Quotient(x: int, y: int): int
    requires y != 0
  {
    if (x < 0) == (y < 0) then Abs(x) / Abs(y) else -(Abs(x) / Abs(y))
  }

  /** x % y: it takes the sign of the dividend. */
  function Remainder(x: int, y: int): (r: int)
    requires y != 0
    ensures Abs(r) < Abs(y)
  {
    if x >= 0 then x % Abs(y) else -((-x) % Abs(y))
  }

  /** q is x / y rounded toward zero: what is left over is smaller than y and has the sign of x. */
  predicate RoundsTowardZero(x: int, y: int, q: int)
  {
    var rest := x - q * y;
    Abs(rest) < Abs(y) && (rest == 0 || (rest < 0) == (x < 0))
  }

  lemma QuotientRoundsTowardZero(x: int, y: int)
    requires y != 0
    ensures RoundsTowardZero(x, y, Quotient(x, y))
    ensures Quotient(x, y) * y + Remainder(x, y) == x
    ensures Abs(Quotient(x, y)) <= Abs(x)
  {
    var q, r := Divide(Abs(x), Abs(y));
    SignedQuotient(x, y, q, r);
    QuotientAtMost(q, Abs(y), r);
  }

  lemma Divide(a: nat, b: nat) returns (q: nat, r: nat)
    requires b > 0
    ensures q == a / b && r == a % b && a == q * b + r && r < b
  {
    q, r := a / b, a % b;
  }

  lemma SignedQuotient(x: int, y: int, q: int, r: int)
    requires Abs(x) == q * Abs(y) + r && 0 <= r < Abs(y)
    ensures var p := if (x < 0) == (y < 0) then q else -q;
            RoundsTowardZero(x, y, p) && p * y + (if x < 0 then -r else r) == x
  {
    assert (-q) * y == -(q * y) && q * (-y) == -(q * y);
  }

  lemma QuotientAtMost(q: nat, b: nat, r: nat)
    requires b > 0
    ensures q <= q * b + r
  {
    assert q * b == q + q * (b - 1);
    assert q * (b - 1) >= 0;
  }

  /** There is only one such quotient. */
  lemma RoundingIsUnique(x: int, y: int, p: int, q: int)
    requires RoundsTowardZero(x, y, p) && RoundsTowardZero(x, y, q)
    ensures p == q
  {
    assert (p - q) * y == (x - q * y) - (x - p * y);
    SmallMultiple(p - q, y);
  }

  /** Zero is the only multiple of y that is smaller than y. */
  lemma SmallMultiple(k: int, y: int)
    requires Abs(k * y) < Abs(y)
    ensures k == 0
  {
    assert k >= 1 && y > 0 ==> k * y >= y;
    assert k >= 1 && y < 0 ==> k * y <= y;
    assert k <= -1 && y > 0 ==> k * y <= -y;
    assert k <= -1 && y < 0 ==> k * y >= -y;
  }

  /** Quotient and remainder are determined by x == q * y + r. */
  lemma DivisionIsUnique(x: nat, y: nat, q: int, r: int)
    requires y > 0 && x == q * y + r && 0 <= r < y
    ensures x / y == q && x % y == r
  {
    var p, s := Divide(x, y);
    assert (p - q) * y == r - s;
    SmallMultiple(p - q, y);
  }
}
