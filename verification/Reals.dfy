/** Order and division of exact reals. */
module Reals {

  lemma Quotients(a: real, c: real)
    requires c > 0.0
    ensures a / c * c == a
  {
  }

  lemma Cancels(x: real, y: real, c: real)
    requires c > 0.0 && x * c == y * c
    ensures x == y
  {
    Ordered(x, y, c);
    Ordered(y, x, c);
  }

  lemma Ordered(x: real, y: real, c: real)
    requires c > 0.0
    ensures x <= y <==> x * c <= y * c
  {
    assert (y - x) * c == y * c - x * c;
    Signs(y - x, c);
  }

  lemma Signs(d: real, c: real)
    requires c > 0.0
    ensures d >= 0.0 <==> d * c >= 0.0
  {
    if d < 0.0 { Positive(-d, c); assert d * c == -((-d) * c); }
  }

  lemma Positive(d: real, c: real)
    requires d > 0.0 && c > 0.0
    ensures d * c > 0.0
  {
  }

  /** A product by its name, so that a proof may hide it and stay linear. */
  function Times(x: real, c: real): real { x * c }

  lemma TimesOrders(x: real, y: real, c: real)
    requires c > 0.0
    ensures x <= y <==> Times(x, c) <= Times(y, c)
  {
    Ordered(x, y, c);
  }

  lemma TimesLinear(z: real, a: real, x: real, b: real, y: real, c: real)
    requires z == a * x + b * y
    ensures Times(z, c) == a * Times(x, c) + b * Times(y, c)
  {
    assert (a * x + b * y) * c == a * x * c + b * y * c;
    assert a * x * c == a * (x * c);
    assert b * y * c == b * (y * c);
  }

  lemma TimesQuotient(a: real, c: real)
    requires c > 0.0
    ensures Times(a / c, c) == a
  {
    Quotients(a, c);
  }
}
