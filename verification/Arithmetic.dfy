/** Division, where multiplication is not linear. */
module Arithmetic {
  lemma MulLe(a: nat, x: int, y: int)
    requires x <= y
    ensures a * x <= a * y
  {
  }

  lemma Quotient(x: nat, c: nat, q: nat, r: nat)
    requires r < c && x == c * q + r
    ensures x / c == q
  {
    var d := x / c;
    if d < q { MulLe(c, d + 1, q); } else if d > q { MulLe(c, q + 1, d); }
  }

  lemma DivTwice(x: nat, a: nat, b: nat)
    requires a >= 1 && b >= 1
    ensures a * b >= 1 && x / a / b == x / (a * b)
  {
    var q, t := x / a, x % a;
    Whole(x, a, q / b * b + q % b, t);
    Parts(x, a, b, q / b, q % b, t);
  }

  lemma Whole(x: nat, a: nat, q: nat, t: nat)
    requires a >= 1 && q == x / a && t == x % a
    ensures x == a * q + t && t < a
  {
  }

  lemma Parts(x: nat, a: nat, b: nat, s: nat, r: nat, t: nat)
    requires x == a * (s * b + r) + t && t < a && r < b
    ensures a * b >= 1 && x / (a * b) == s
  {
    MulLe(a, r, b - 1);
    assert a * (s * b + r) == a * (s * b) + a * r;
    assert a * (s * b) == a * b * s;
    Quotient(x, a * b, s, t + a * r);
  }

  /** Counting up, the quotient goes on after the last remainder. */
  lemma NextQuotient(i: nat, w: nat)
    requires w > 0
    ensures (i + 1) / w == i / w + if i % w == w - 1 then 1 else 0
    ensures i % w == w - 1 ==> (i / w + 1) * w - 1 == i
  {
    if i % w == w - 1 { Quotient(i + 1, w, i / w + 1, 0); } else { Quotient(i + 1, w, i / w, i % w + 1); }
  }
}
