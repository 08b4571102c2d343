/** A few facts about products and quotients that the solver needs one at a time. */
module Arithmetic {
  lemma Distribute(x: int, y: int, c: int)
    ensures (x + y) * c == x * c + y * c
  {
  }

  lemma Times(x: int, y: int, c: nat)
    requires x <= y
    ensures x * c <= y * c
  {
    Distribute(x, y - x, c);
  }

  /** There is only one quotient and one remainder. */
  lemma Quotient(n: int, d: nat, q: int, r: nat)
    requires n == q * d + r && r < d
    ensures n / d == q && n % d == r
  {
    var other := n / d;
    Division(n, d);
    if other <= q - 1 { Times(other + 1, q, d); Distribute(other, 1, d); }
    if q <= other - 1 { Times(q + 1, other, d); Distribute(q, 1, d); }
  }

  lemma Division(n: int, d: nat)
    requires d > 0
    ensures n == n / d * d + n % d && 0 <= n % d < d
  {
  }

  lemma DivideOrdered(x: int, y: int, d: nat)
    requires x <= y && d > 0
    ensures x / d <= y / d
  {
    Division(x, d);
    Division(y, d);
    if y / d + 1 <= x / d { Times(y / d + 1, x / d, d); Distribute(y / d, 1, d); }
  }

  /** A place inside a picture of `rows` rows lies inside its bytes. */
  lemma InPicture(row: nat, column: nat, pitch: nat, rows: nat)
    requires row < rows && column < pitch
    ensures 0 <= row * pitch + column < rows * pitch
  {
    Times(row + 1, rows, pitch);
    Times(0, row, pitch);
    Distribute(row, 1, pitch);
  }

  lemma RowInPicture(k: nat, stride: nat, rows: nat)
    requires stride > 0 && k < rows * stride
    ensures k / stride < rows && k % stride < stride && k == k / stride * stride + k % stride
  {
    Division(k, stride);
    if rows <= k / stride { Times(rows, k / stride, stride); }
  }
}
