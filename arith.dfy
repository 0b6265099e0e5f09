/** Facts about multiplication and division on naturals, each proved on its own so that no larger proof has to find them. */
module Arith {

  lemma MulLe(a: nat, b: nat, c: nat)
    requires a <= b
    ensures a * c <= b * c
  {
  }

  lemma MulSucc(a: int, c: int)
    ensures (a + 1) * c == a * c + c
  {
  }

  lemma MulLtCancel(a: int, b: int, w: nat)
    requires w > 0 && a * w < b * w
    ensures a < b
  {
  }

  /** Division by a positive divisor leaves a quotient whose multiple fits and a remainder `len mod d`. */
  lemma DivFacts(len: nat, d: nat)
    requires d > 0
    ensures (len / d) * d <= len
    ensures len - (len / d) * d == len % d
  {
  }

  /** The `j`-th run of `n` items lies inside `m * n` items when `j < m`. */
  lemma RunInRange(len: nat, m: nat, n: nat, j: nat)
    requires n * m <= len && j < m
    ensures j * n + n <= len
  {
    MulLe(j + 1, m, n);
    MulSucc(j, n);
  }

  /** One more step of `w`: if `c` steps cover `d - w` (none when `d <= w`), then `c + 1` steps cover `d`. */
  lemma CeilStep(d: nat, w: nat, c: nat)
    requires w > 0 && d > 0
    requires d <= w ==> c == 0
    requires d > w ==> (c - 1) * w < d - w <= c * w
    ensures c * w < d <= (c + 1) * w
  {
    MulSucc(c, w);
    MulSucc(c - 1, w);
  }

  /** The quotient of a ceiling division: `(c - 1) * w < d <= c * w` pins c to `(d + w - 1) / w`. */
  lemma CeilDiv(d: nat, w: nat, c: nat)
    requires w > 0 && (c - 1) * w < d <= c * w
    ensures c == (d + w - 1) / w
  {
    var q, r := (d + w - 1) / w, (d + w - 1) % w;
    assert d + w - 1 == q * w + r && 0 <= r < w;
    MulSucc(c, w);
    MulSucc(q, w);
    MulSucc(c - 1, w);
    MulLtCancel(q, c + 1, w);
    MulLtCancel(c, q + 1, w);
  }
}
