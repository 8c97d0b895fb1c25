/** Powers of two, for the doubling delay and for the exponents of doubles. */
module Powers {

  function Pow2(k: nat): (r: nat)
    ensures r >= 1
  {
    if k == 0 then 1 else 2 * Pow2(k - 1)
  }

  lemma {:induction false} PowAdd(a: nat, b: nat)
    ensures Pow2(a + b) == Pow2(a) * Pow2(b)
  {
    if b > 0 {
      PowAdd(a, b - 1);
      assert Pow2(a + b) == 2 * (Pow2(a) * Pow2(b - 1));
    }
  }

  /** Dividing twice is dividing by the product. */
  lemma DivideTwice(v: nat, a: nat, p: nat)
    requires a >= 1 && p >= 1
    ensures a * p >= 1 && v / a / p == v / (a * p)
  {
    var w := v / a;
    var q, r := w / p, w % p;
    Divided(v, a);
    Divided(w, p);
    Regrouped(a, q, p, r);
    Times(a, r + 1, p);
    Times(a, 1, p);
    Stepped(a, r);
    QuotientIs(v, a * p, q, a * r + v % a);
  }

  lemma Divided(v: nat, d: nat)
    requires d >= 1
    ensures v == d * (v / d) + v % d && v % d < d
  {
  }

  lemma Regrouped(a: nat, q: nat, p: nat, r: nat)
    ensures a * (p * q + r) == q * (a * p) + a * r
  {
  }

  lemma Stepped(a: nat, b: nat)
    ensures a * (b + 1) == a * b + a && a * b >= 0
  {
  }

  lemma Times(a: nat, b: int, c: int)
    requires b <= c
    ensures a * b <= a * c
  {
  }

  lemma QuotientIs(v: nat, d: nat, q: nat, r: nat)
    requires v == q * d + r && r < d
    ensures v / d == q
  {
    var w := v / d;
    Divided(v, d);
    Stepped(d, w);
    Stepped(d, q);
    if w < q {
      Times(d, w + 1, q);
      assert false;
    } else if w > q {
      Times(d, q + 1, w);
      assert false;
    }
  }
}
