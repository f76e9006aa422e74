/** Products and powers of reals. */
module Products {
  import opened Rounding

  /** A product under a name, so that equal factors are seen to give equal products. */
  function Times(x: real, y: real): real { x * y }

  lemma {:induction false} TimesAssociate(x: real, y: real, z: real)
    ensures Times(Times(x, y), z) == Times(x, Times(y, z))
  {}

  lemma {:induction false} TimesOne(x: real)
    ensures Times(1.0, x) == x && Times(x, 1.0) == x
  {}

  lemma {:induction false} TimesDistributes(x: real, y: real, z: real)
    ensures Times(x, y + z) == Times(x, y) + Times(x, z)
  {}

  lemma {:induction false} TimesSign(x: real, y: real)
    requires (x >= 0.0 && y >= 0.0) || (x <= 0.0 && y <= 0.0)
    ensures Times(x, y) >= 0.0
    ensures Times(x, y) == 0.0 <==> x == 0.0 || y == 0.0
  {}

  lemma {:induction false} TimesMonotone(x: real, y: real, p: real, q: real)
    requires 0.0 < x <= y && 0.0 < p <= q
    ensures Times(x, p) <= Times(y, q)
    ensures x < y ==> Times(x, p) < Times(y, q)
  {
    MulMonotone(x, y, p);
    MulMonotone(p, q, y);
    assert (y - x) * p >= 0.0;
    assert x < y ==> (y - x) * p > 0.0;
  }

  // ---------- products of sequences ----------

  function Product(s: seq<real>): real {
    if s == [] then 1.0 else Times(Product(s[..|s| - 1]), s[|s| - 1])
  }

  lemma {:induction false} ProductNext(a: seq<real>, x: real)
    ensures Product(a + [x]) == Times(Product(a), x)
  {
    assert (a + [x])[..|a|] == a;
  }

  lemma {:induction false} ProductConcat(a: seq<real>, b: seq<real>)
    ensures Product(a + b) == Times(Product(a), Product(b))
  {
    if b == [] {
      assert a + b == a;
      TimesOne(Product(a));
    } else {
      var c, z := b[..|b| - 1], b[|b| - 1];
      assert (a + b)[..|a + b| - 1] == a + c;
      ProductConcat(a, c);
      TimesAssociate(Product(a), Product(c), z);
    }
  }

  /** Splitting one factor into two leaves the product as it was. */
  lemma {:induction false} ProductSplitFactor(a: seq<real>, x: real, y: real, c: seq<real>)
    ensures Product(a + [x] + [y] + c) == Product(a + [Times(x, y)] + c)
  {
    ProductNext(a, x);
    ProductNext(a + [x], y);
    ProductNext(a, Times(x, y));
    TimesAssociate(Product(a), x, y);
    ProductConcat(a + [x] + [y], c);
    ProductConcat(a + [Times(x, y)], c);
  }

  lemma {:induction false} ProductTwoForOne(f: seq<real>, g: seq<real>, j: nat, x: real, y: real)
    requires j < |f| && |g| == |f| + 1 && f[j] == Times(x, y)
    requires forall i :: 0 <= i < j ==> g[i] == f[i]
    requires g[j + 2..] == f[j + 1..]
    requires g[j] == x && g[j + 1] == y
    ensures Product(g) == Product(f)
  {
    assert f == f[..j] + [Times(x, y)] + f[j + 1..];
    assert g == f[..j] + [x] + [y] + f[j + 1..];
    ProductSplitFactor(f[..j], x, y, f[j + 1..]);
  }

  lemma {:induction false} QuotientsCompose(m: real, v0: real, gain: real)
    requires m != 0.0 && v0 != 0.0
    ensures Times(m / v0, gain / m) == gain / v0
  {
    DivTimes(gain, m);
    DivTimes(m, v0);
    DivTimes(gain, v0);
    assert (m / v0 * (gain / m)) * v0 == (m / v0 * v0) * (gain / m);
    MulCancel(Times(m / v0, gain / m), gain / v0, v0);
  }

  lemma {:induction false} QuotientSelf(x: real, y: real)
    requires x == y && y != 0.0
    ensures x / y == 1.0
  {}

  /** The ratios of neighbours multiply to the last over the first. */
  lemma {:induction false} ProductTelescopes(v: seq<real>, f: seq<real>)
    requires |v| == |f| + 1 && v[0] > 0.0
    requires forall i :: 0 <= i < |f| ==> v[i] > 0.0 && f[i] == v[i + 1] / v[i]
    ensures Product(f) == v[|f|] / v[0]
  {
    var n := |f|;
    if n == 0 {
      QuotientSelf(v[|f|], v[0]);
    } else {
      ProductTelescopes(v[..n], f[..n - 1]);
      QuotientsCompose(v[n - 1], v[0], v[n]);
    }
  }

  // ---------- powers ----------

  function Pow(x: real, n: nat): (p: real)
    ensures x > 0.0 ==> p > 0.0
  {
    if n == 0 then 1.0 else Times(x, Pow(x, n - 1))
  }

  lemma {:induction false} PowAdd(x: real, a: nat, b: nat)
    ensures Pow(x, a + b) == Times(Pow(x, a), Pow(x, b))
  {
    if a == 0 {
      TimesOne(Pow(x, b));
    } else {
      PowAdd(x, a - 1, b);
      TimesAssociate(x, Pow(x, a - 1), Pow(x, b));
    }
  }

  lemma {:induction false} PowMonotone(x: real, y: real, n: nat)
    requires 0.0 < x < y
    ensures Pow(x, n) <= Pow(y, n)
    ensures n > 0 ==> Pow(x, n) < Pow(y, n)
  {
    if n > 0 {
      PowMonotone(x, y, n - 1);
      TimesMonotone(x, y, Pow(x, n - 1), Pow(y, n - 1));
    }
  }
}
