/** Small facts about products of reals that the controller and plant proofs
    use; each isolates one non-linear step so the solver sees it alone. */
module RealArith {

  lemma MulMono(k: real, a: real, b: real)
    requires k >= 0.0 && a <= b
    ensures k * a <= k * b
  {
    assert k * b - k * a == k * (b - a);
  }

  lemma PositiveFactor(k: real, a: real)
    requires k > 0.0 && k * a > 0.0
    ensures a > 0.0
  {
    if a <= 0.0 {
      MulMono(k, a, 0.0);
    }
  }

  lemma ScaleShrinks(c: real, d: real)
    requires 0.0 <= c <= 1.0
    ensures (d >= 0.0 ==> 0.0 <= c * d <= d) && (d <= 0.0 ==> d <= c * d <= 0.0)
  {
    var k := 1.0 - c;
    assert k * d == d - c * d;
    if d >= 0.0 {
      assert k * d >= 0.0;
    } else {
      assert k * (-d) >= 0.0;
      assert c * (-d) >= 0.0;
    }
  }

  lemma DivMono(a: real, b: real, tau: real)
    requires tau > 0.0 && a <= b
    ensures a / tau <= b / tau
  {
    assert b / tau - a / tau == (b - a) / tau;
  }
}
