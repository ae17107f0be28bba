/** Division with remainder. */
module Quotients {
  lemma {:induction false} Above(a: nat, b: nat, m: nat)
    requires a > b
    ensures a * m >= b * m + m
  {
    assert a * m == b * m + m + (a - b - 1) * m;
  }

  /** Division with remainder has one result. */
  lemma {:induction false} QuotientIs(v: nat, m: nat, q: nat, r: nat)
    requires v == q * m + r && r < m
    ensures v / m == q && v % m == r
  {
    assert v == (v / m) * m + v % m;
    if v / m > q {
      Above(v / m, q, m);
    } else if q > v / m {
      Above(q, v / m, m);
    }
  }

  /** Dividing by `b` and then by `m` is dividing by their product. */
  lemma {:induction false} DivideTwice(v: nat, b: nat, m: nat)
    requires b > 0 && m > 0
    ensures b * m > 0 && v / b / m == v / (b * m)
  {
    var q, r, s := v / b / m, v / b % m, v % b;
    assert v / b == q * m + r;
    assert v == (v / b) * b + s;
    Regroup(q, m, r, b);
    Above(m, r, b);
    QuotientIs(v, b * m, q, r * b + s);
  }

  lemma {:induction false} Regroup(q: nat, m: nat, r: nat, b: nat)
    ensures (q * m + r) * b == q * (b * m) + r * b && m * b == b * m
  {
  }
}
