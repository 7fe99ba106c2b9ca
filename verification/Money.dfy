/** Amounts as exact reals, rounded to two places the way `Math.round(value * 100) / 100` does. */
module Money {
  function Round2(x: real): real { (x * 100.0 + 0.5).Floor as real / 100.0 }

  predicate WholeCents(x: real) { (x * 100.0).Floor as real == x * 100.0 }

  function Max0(x: real): real { if x > 0.0 then x else 0.0 }

  function Sum(xs: seq<real>): real {
    if xs == [] then 0.0 else Sum(xs[..|xs| - 1]) + xs[|xs| - 1]
  }

  lemma FloorIs(x: real, n: int)
    requires n as real <= x < n as real + 1.0
    ensures x.Floor == n
  {
    assert x.Floor as real <= x < x.Floor as real + 1.0;
    assert (x.Floor - n) as real == x.Floor as real - n as real;
  }

  lemma CentsOf(x: real, n: int)
    requires x * 100.0 == n as real
    ensures WholeCents(x)
  {
    FloorIs(x * 100.0, n);
  }

  lemma Round2Near(x: real)
    ensures -0.005 < Round2(x) - x <= 0.005
    ensures WholeCents(Round2(x))
    ensures WholeCents(x) <==> Round2(x) == x
  {
    var n := (x * 100.0 + 0.5).Floor;
    assert n as real <= x * 100.0 + 0.5 < n as real + 1.0;
    assert Round2(x) * 100.0 == n as real;
    CentsOf(Round2(x), n);
    if WholeCents(x) {
      var m := (x * 100.0).Floor;
      FloorIs(x * 100.0 + 0.5, m);
      assert n == m;
    }
  }

  lemma FloorMonotone(x: real, y: real)
    requires x <= y
    ensures x.Floor <= y.Floor
  {
  }

  lemma Round2Monotone(x: real, y: real)
    requires x <= y
    ensures Round2(x) <= Round2(y)
  {
    FloorMonotone(x * 100.0 + 0.5, y * 100.0 + 0.5);
  }

  lemma CentsClosed(x: real, y: real)
    requires WholeCents(x) && WholeCents(y)
    ensures WholeCents(x + y) && WholeCents(x - y) && WholeCents(-y) && WholeCents(Max0(x)) && WholeCents(0.0)
  {
    var m, n := (x * 100.0).Floor, (y * 100.0).Floor;
    assert (x + y) * 100.0 == m as real + n as real && (x - y) * 100.0 == m as real - n as real;
    hide WholeCents;
    CentsOf(x + y, m + n);
    CentsOf(x - y, m - n);
    CentsOf(-y, -n);
    CentsOf(0.0, 0);
  }
}
