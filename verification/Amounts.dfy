/** connectors/lexoffice/write.go: cents rounding and the net, gross, tax triple, over exact reals. */
module Amounts {
  import opened Wrappers

  function Abs(x: real): real { if x < 0.0 then -x else x }

  /** Go's conversion to int: toward zero. */
  function Truncate(x: real): int {
    if x >= 0.0 then x.Floor else -((-x).Floor)
  }

  function Cents(v: real): int { Truncate(v * 100.0 + 0.5) }

  function Round2(v: real): real { Cents(v) as real / 100.0 }

  lemma Round2Near(v: real)
    requires v >= 0.0
    ensures Abs(Round2(v) - v) <= 0.005 && Cents(v) >= 0
  {
    var c := Cents(v);
    assert c as real <= v * 100.0 + 0.5 < c as real + 1.0;
  }

  lemma Round2Monotone(u: real, v: real)
    requires 0.0 <= u <= v
    ensures Round2(u) <= Round2(v)
  {
    assert u * 100.0 + 0.5 <= v * 100.0 + 0.5;
    assert Cents(u) <= Cents(v);
  }

  /** A whole number of cents is kept exactly when it is not negative; a negative one moves up a cent. */
  lemma Round2OfCents(c: int)
    ensures Round2(c as real / 100.0) == c as real / 100.0 <==> c >= 0
    ensures c < 0 ==> Cents(c as real / 100.0) == c + 1
  {
    var v := c as real / 100.0;
    assert v * 100.0 + 0.5 == c as real + 0.5;
    if c >= 0 {
      assert (c as real + 0.5).Floor == c;
    } else {
      assert (-(c as real) - 0.5).Floor == -c - 1;
    }
  }

  lemma Round2Idempotent(v: real)
    requires v >= 0.0
    ensures Round2(Round2(v)) == Round2(v)
  {
    Round2Near(v);
    Round2OfCents(Cents(v));
  }

  datatype Amounts = Amounts(net: real, gross: real, tax: real, rate: real, taxType: string)

  /** Net is to be found by dividing the gross amount by zero; no cents come of it. */
  predicate DividesByZero(net: real, gross: real, rate: real) { net == 0.0 && gross > 0.0 && rate == -100.0 }

  function NetOf(net: real, gross: real, rate: real): real
    requires !DividesByZero(net, gross, rate)
  {
    if net == 0.0 && gross > 0.0 then gross / (1.0 + rate / 100.0) else net
  }

  function TaxOf(net: real, tax: real, rate: real): real {
    if tax == 0.0 then net * rate / 100.0 else tax
  }

  function GrossOf(net: real, gross: real, tax: real): real { if gross == 0.0 then net + tax else gross }

  /** The amounts before rounding, when there is no reverse charge. */
  function Exact(net: real, gross: real, tax: real, rate: real): (real, real, real)
    requires !DividesByZero(net, gross, rate)
  {
    var n := NetOf(net, gross, rate);
    var t := TaxOf(n, tax, rate);
    (n, GrossOf(n, gross, t), t)
  }

  function Rounded(exact: (real, real, real), rate: real): Amounts {
    Amounts(Round2(exact.0), Round2(exact.1), Round2(exact.2), rate, "net")
  }

  /** The amounts, or nothing when the net amount is a division by zero. */
  method ComputeAmounts(net0: real, gross0: real, tax0: real, rate0: real, reverseCharge: bool)
    returns (a: Option<Amounts>)
    ensures a.None? <==> !reverseCharge && DividesByZero(net0, gross0, rate0)
    ensures a.Some? ==> a.value.rate == if rate0 == 0.0 then 19.0 else rate0
    ensures reverseCharge ==>
              && a.value.gross == a.value.net == Round2(if net0 == 0.0 then gross0 else net0)
              && a.value.tax == 0.0 && a.value.taxType == "gross"
    ensures !reverseCharge && a.Some? ==> a.value == Rounded(Exact(net0, gross0, tax0, a.value.rate), a.value.rate)
    ensures !reverseCharge && a.Some? ==>
              && a.value.taxType == "net" && (net0 != 0.0 ==> a.value.net == Round2(net0))
              && (gross0 != 0.0 ==> a.value.gross == Round2(gross0)) && (tax0 != 0.0 ==> a.value.tax == Round2(tax0))
  {
    var rate := rate0;
    if rate == 0.0 {
      rate := 19.0;
    }
    if reverseCharge {
      var amt := net0;
      if amt == 0.0 {
        amt := gross0;
      }
      return Some(Amounts(Round2(amt), Round2(amt), 0.0, rate, "gross"));
    }
    a := FillIn(net0, gross0, tax0, rate);
  }

  lemma ZeroFactor(rate: real)
    ensures 1.0 + rate / 100.0 == 0.0 <==> rate == -100.0
  {
  }

  /** Lines 49-51: net from gross. */
  method FillNet(net0: real, gross: real, rate: real) returns (net: Option<real>)
    ensures net == if DividesByZero(net0, gross, rate) then None else Some(NetOf(net0, gross, rate))
  {
    if net0 == 0.0 && gross > 0.0 {
      ZeroFactor(rate);
      if 1.0 + rate / 100.0 == 0.0 {
        return None;
      }
      return Some(gross / (1.0 + rate / 100.0));
    }
    net := Some(net0);
  }

  /** Lines 49-58: fill net from gross, tax from net, gross from both, and round. */
  method FillIn(net0: real, gross0: real, tax0: real, rate: real) returns (a: Option<Amounts>)
    ensures a == if DividesByZero(net0, gross0, rate) then None else Some(Rounded(Exact(net0, gross0, tax0, rate), rate))
  {
    var net := FillNet(net0, gross0, rate);
    if net.None? {
      return None;
    }
    var n, gross, tax := net.value, gross0, tax0;
    if tax == 0.0 {
      tax := n * rate / 100.0;
    }
    assert tax == TaxOf(n, tax0, rate);
    if gross == 0.0 {
      gross := n + tax;
    }
    assert (n, gross, tax) == Exact(net0, gross0, tax0, rate);
    a := Some(Amounts(Round2(n), Round2(gross), Round2(tax), rate, "net"));
  }

  /** The nearest whole number of cents, halves rounding up; below zero the sum with the half is cut toward zero. */
  lemma CentsExactly(v: real, c: int)
    ensures v * 100.0 + 0.5 >= 0.0 ==> (Cents(v) == c <==> c as real - 0.5 <= v * 100.0 < c as real + 0.5)
    ensures v * 100.0 + 0.5 < 0.0 ==> (Cents(v) == c <==> c as real - 1.5 < v * 100.0 <= c as real - 0.5)
  {
    var x := v * 100.0 + 0.5;
    var f := if x >= 0.0 then x.Floor else (-x).Floor;
    assert if x >= 0.0 then f as real <= x < f as real + 1.0 else f as real <= -x < f as real + 1.0;
  }

  /** Amounts that are given are kept, and those that are not follow from the others: the net amount is the one
      to which the rate brings the gross, the tax is the rate's share of the net, the gross is net and tax. */
  lemma TripleMeans(net: real, gross: real, tax: real, rate: real)
    requires !DividesByZero(net, gross, rate)
    ensures var (n, g, t) := Exact(net, gross, tax, rate);
            && (net != 0.0 ==> n == net) && (gross != 0.0 ==> g == gross) && (tax != 0.0 ==> t == tax)
            && (net == 0.0 && gross > 0.0 ==> 100.0 * gross == n * (100.0 + rate))
            && (net == 0.0 && gross <= 0.0 ==> n == 0.0)
            && (tax == 0.0 ==> 100.0 * t == n * rate)
            && (gross == 0.0 ==> g == n + t)
  {
    if net == 0.0 && gross > 0.0 {
      var f := 1.0 + rate / 100.0;
      ZeroFactor(rate);
      QuotientTimes(gross, f);
      assert 100.0 * f == 100.0 + rate;
    }
  }

  lemma QuotientTimes(a: real, b: real)
    requires b != 0.0
    ensures (a / b) * b == a
  {
  }

  /** Only net, only gross, or net with tax. */
  predicate Supplied(net: real, gross: real, tax: real) {
    || (net > 0.0 && gross == 0.0 && tax >= 0.0)
    || (net == 0.0 && gross > 0.0 && tax == 0.0)
  }

  lemma QuotientPositive(a: real, b: real)
    requires a > 0.0 && b > 0.0
    ensures a / b > 0.0 && (a / b) * b == a
  {
  }

  /** The unrounded amounts add up and are not negative. */
  lemma ExactAddsUp(net: real, gross: real, tax: real, rate: real)
    requires Supplied(net, gross, tax) && rate > 0.0
    ensures var (n, g, t) := Exact(net, gross, tax, rate);
            n > 0.0 && t >= 0.0 && n + t == g
  {
    var (n, g, t) := Exact(net, gross, tax, rate);
    if net == 0.0 {
      var f := 1.0 + rate / 100.0;
      QuotientPositive(gross, f);
      assert t == n * (rate / 100.0);
      assert n + t == n * f;
      assert n * rate >= 0.0;
    } else {
      assert n * rate >= 0.0;
    }
  }

  /** Each rounded amount is within half a cent of its exact value, and the rounded net and tax miss the
      rounded gross by at most one cent. */
  lemma WithinACent(net: real, gross: real, tax: real, rate: real)
    requires Supplied(net, gross, tax) && rate > 0.0
    ensures var (n, g, t) := Exact(net, gross, tax, rate);
            && Abs(Round2(n) - n) <= 0.005 && Abs(Round2(g) - g) <= 0.005 && Abs(Round2(t) - t) <= 0.005
            && -1 <= Cents(n) + Cents(t) - Cents(g) <= 1
  {
    var (n, g, t) := Exact(net, gross, tax, rate);
    ExactAddsUp(net, gross, tax, rate);
    Round2Near(n);
    Round2Near(g);
    Round2Near(t);
    var x := (Cents(n) + Cents(t) - Cents(g)) as real;
    assert x / 100.0 == Round2(n) + Round2(t) - Round2(g);
    assert -1.5 <= x <= 1.5;
  }
}
