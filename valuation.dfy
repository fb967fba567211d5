/** compute_valuations (app.py:179-193): each asset's captured monetary
    premium, discounted over its horizon, summed into a fair market cap and
    divided by the coin supply. Arithmetic is over exact reals, not IEEE
    doubles. */
module Valuation {

  /** One asset's assumptions as the sidebar collects them (app.py:169-174):
      market cap, monetary-premium fraction, capture probability and time
      horizon in years. */
  datatype Asset = Asset(name: string, mcap: real, mp: real, prob: real, time: nat)

  /** One row of the breakdown table (app.py:186). */
  datatype Row = Row(asset: string, pv: real)

  /** The ranges the sidebar sliders allow (app.py:93-102, 128-168). */
  predicate SliderRate(rate: real) {
    0.0 <= rate <= 0.25
  }

  predicate SliderAsset(a: Asset) {
    a.mcap >= 0.0 && 0.0 <= a.mp <= 1.0 && 0.0 <= a.prob <= 1.0 && 1 <= a.time <= 50
  }

  /** `x ** n` for a whole exponent. */
  function Pow(x: real, n: nat): real
    decreases n
  {
    if n == 0 then 1.0 else x * Pow(x, n - 1)
  }

  lemma {:induction false} PowNonZero(x: real, n: nat)
    requires x != 0.0
    ensures Pow(x, n) != 0.0
    decreases n
  {
    if n > 0 {
      PowNonZero(x, n - 1);
    }
  }

  lemma {:induction false} PowPositive(x: real, n: nat)
    requires x > 0.0
    ensures Pow(x, n) > 0.0
    decreases n
  {
    if n > 0 {
      PowPositive(x, n - 1);
    }
  }

  /** A base of at least one gives powers that never shrink as the exponent
      grows, and grow strictly when the base exceeds one. */
  lemma {:induction false} PowGrows(x: real, m: nat, n: nat)
    requires x >= 1.0 && m <= n
    ensures 1.0 <= Pow(x, m) <= Pow(x, n)
    ensures x > 1.0 && m < n ==> Pow(x, m) < Pow(x, n)
    decreases n
  {
    if n > 0 {
      var q := Pow(x, n - 1);
      assert Pow(x, n) == x * q;
      PowGrows(x, 0, n - 1);
      assert 1.0 <= q;
      MulMono(q, 1.0, x);
      assert q <= x * q by { assert q * 1.0 == q && q * x == x * q; }
      assert x > 1.0 ==> q < x * q by {
        if x > 1.0 {
          assert x * q - q == q * (x - 1.0);
        }
      }
      if m < n {
        PowGrows(x, m, n - 1);
      }
    }
  }

  /** Multiplying by a non-negative factor keeps an inequality. */
  lemma MulMono(x: real, y: real, z: real)
    requires 0.0 <= x && y <= z
    ensures x * y <= x * z
  {
    assert x * z - x * y == x * (z - y);
  }

  /** `cap_val` of app.py:184. */
  function Captured(a: Asset): real {
    a.mcap * a.mp * a.prob
  }

  /** `pv` of app.py:185: the captured value discounted by
      `(1 + rate) ** time`. Python raises `ZeroDivisionError` when
      `1 + rate` is zero, so that rate is excluded. */
  function PresentValue(a: Asset, rate: real): real
    requires rate != -1.0
  {
    PowNonZero(1.0 + rate, a.time);
    Captured(a) / Pow(1.0 + rate, a.time)
  }

  /** The sum of the present values of `assets`, added in order. */
  function TotalPV(assets: seq<Asset>, rate: real): real
    requires rate != -1.0
    decreases |assets|
  {
    if assets == [] then 0.0
    else TotalPV(assets[..|assets| - 1], rate) + PresentValue(assets[|assets| - 1], rate)
  }

  /** The sum of the captured values of `assets`. */
  function TotalCaptured(assets: seq<Asset>): real
    decreases |assets|
  {
    if assets == [] then 0.0
    else TotalCaptured(assets[..|assets| - 1]) + Captured(assets[|assets| - 1])
  }

  /** compute_valuations as the source writes it: a `for` loop over the
      assets that appends one breakdown row per asset and accumulates the
      total, then the division by the supply. The fair market cap is the sum
      of all present values, the fair price that sum over the supply, and the
      breakdown holds each asset's present value in iteration order. */
  method ComputeValuations(assets: seq<Asset>, rate: real, supply: real)
    returns (fairMktcap: real, fairPrice: real, breakdown: seq<Row>)
    requires rate != -1.0 && supply != 0.0
    ensures fairMktcap == TotalPV(assets, rate)
    ensures fairPrice == fairMktcap / supply
    ensures |breakdown| == |assets|
    ensures forall i :: 0 <= i < |assets| ==>
              breakdown[i] == Row(assets[i].name, PresentValue(assets[i], rate))
  {
    var data: seq<Row> := [];
    var totalPv := 0.0;
    for i := 0 to |assets|
      invariant |data| == i
      invariant forall j :: 0 <= j < i ==> data[j] == Row(assets[j].name, PresentValue(assets[j], rate))
      invariant totalPv == TotalPV(assets[..i], rate)
    {
      var v := assets[i];
      var capVal := v.mcap * v.mp * v.prob;
      PowNonZero(1.0 + rate, v.time);
      var pv := capVal / Pow(1.0 + rate, v.time);
      assert pv == PresentValue(assets[i], rate);
      data := data + [Row(v.name, pv)];
      assert assets[..i + 1][..i] == assets[..i];
      totalPv := totalPv + pv;
    }
    assert assets[..|assets|] == assets;
    fairMktcap := totalPv;
    fairPrice := fairMktcap / supply;
    breakdown := data;
  }

  // ---------------------------------------------------------------------
  // Properties of the valuation
  // ---------------------------------------------------------------------

  /** Dividing a non-negative amount by a factor of at least one keeps it
      between zero and itself. */
  lemma DivShrinks(c: real, d: real)
    requires 0.0 <= c && 1.0 <= d
    ensures 0.0 <= c / d <= c
  {
    assert c / d * d == c;
    MulMono(c / d, 1.0, d);
  }

  /** A non-negative amount scaled by two fractions in [0, 1] stays
      between zero and the amount. */
  lemma ScaledBounds(m: real, p: real, q: real)
    requires m >= 0.0 && 0.0 <= p <= 1.0 && 0.0 <= q <= 1.0
    ensures 0.0 <= m * p * q <= m
  {
    MulMono(m, p, 1.0);
    assert m * p <= m;
    MulMono(m, 0.0, p);
    assert 0.0 <= m * p;
    var mp := m * p;
    MulMono(mp, q, 1.0);
    assert mp * q <= mp;
    MulMono(mp, 0.0, q);
    assert 0.0 <= mp * q;
    assert m * p * q == mp * q;
  }

  /** Within the slider ranges the captured value lies between zero and the
      market cap. */
  lemma CapturedBounds(a: Asset)
    requires a.mcap >= 0.0 && 0.0 <= a.mp <= 1.0 && 0.0 <= a.prob <= 1.0
    ensures 0.0 <= Captured(a) <= a.mcap
  {
    ScaledBounds(a.mcap, a.mp, a.prob);
    assert Captured(a) == a.mcap * a.mp * a.prob;
  }

  /** Within the slider ranges an asset's present value lies between zero
      and its captured value, which is at most its market cap. */
  lemma PresentValueBounds(a: Asset, rate: real)
    requires SliderAsset(a) && SliderRate(rate)
    ensures 0.0 <= PresentValue(a, rate) <= Captured(a) <= a.mcap
  {
    PowGrows(1.0 + rate, 0, a.time);
    CapturedBounds(a);
    DivShrinks(Captured(a), Pow(1.0 + rate, a.time));
  }

  /** Discounting is undone by compounding over the same horizon: the
      present value grown by `(1 + rate) ** time` is the captured value. */
  lemma DiscountRoundTrip(a: Asset, rate: real)
    requires rate != -1.0
    ensures PresentValue(a, rate) * Pow(1.0 + rate, a.time) == Captured(a)
  {
    PowNonZero(1.0 + rate, a.time);
  }

  /** With a positive rate, a longer horizon gives a smaller present value
      (strictly smaller when something is captured). */
  lemma PresentValueFallsWithTime(a: Asset, t: nat, rate: real)
    requires rate > 0.0 && Captured(a) >= 0.0 && a.time <= t
    ensures PresentValue(a.(time := t), rate) <= PresentValue(a, rate)
    ensures Captured(a) > 0.0 && a.time < t ==> PresentValue(a.(time := t), rate) < PresentValue(a, rate)
  {
    PowGrows(1.0 + rate, a.time, t);
    var c := Captured(a);
    var d1 := Pow(1.0 + rate, a.time);
    var d2 := Pow(1.0 + rate, t);
    assert Captured(a.(time := t)) == c;
    assert c / d2 <= c / d1 by {
      assert c / d2 * d2 == c;
      assert c / d1 * d1 == c;
      assert c * d1 <= c * d2;
    }
    if c > 0.0 && a.time < t {
      assert c * d1 < c * d2;
    }
  }

  /** A product of three non-negative factors grows with each factor. */
  lemma ProductMono(m: real, p: real, q: real, m': real, p': real, q': real)
    requires 0.0 <= m <= m' && 0.0 <= p <= p' && 0.0 <= q <= q'
    ensures m * p * q <= m' * p' * q'
  {
    MulMono(p, m, m');
    assert m * p <= m' * p by { assert p * m == m * p && p * m' == m' * p; }
    MulMono(m', p, p');
    MulMono(m, 0.0, p);
    var x, y := m * p, m' * p';
    assert 0.0 <= x <= y;
    MulMono(q, x, y);
    assert x * q <= y * q by { assert q * x == x * q && q * y == y * q; }
    MulMono(y, q, q');
  }

  /** A larger market cap, monetary premium or capture probability (all
      non-negative, same horizon) never lowers the present value. */
  lemma PresentValueRisesWithCapture(a: Asset, b: Asset, rate: real)
    requires rate > -1.0 && a.time == b.time
    requires 0.0 <= a.mcap <= b.mcap && 0.0 <= a.mp <= b.mp && 0.0 <= a.prob <= b.prob
    ensures PresentValue(a, rate) <= PresentValue(b, rate)
  {
    PowPositive(1.0 + rate, a.time);
    var d := Pow(1.0 + rate, a.time);
    ProductMono(a.mcap, a.mp, a.prob, b.mcap, b.mp, b.prob);
    assert Captured(a) == a.mcap * a.mp * a.prob && Captured(b) == b.mcap * b.mp * b.prob;
    MulMono(1.0 / d, Captured(a), Captured(b));
  }

  /** Within the slider ranges the fair market cap lies between zero and the
      total captured value. */
  lemma {:induction false} TotalPVBounds(assets: seq<Asset>, rate: real)
    requires SliderRate(rate)
    requires forall i :: 0 <= i < |assets| ==> SliderAsset(assets[i])
    ensures 0.0 <= TotalPV(assets, rate) <= TotalCaptured(assets)
    decreases |assets|
  {
    if assets != [] {
      var n := |assets| - 1;
      TotalPVBounds(assets[..n], rate);
      PresentValueBounds(assets[n], rate);
    }
  }

  /** When no asset has anything to capture (for instance every capture
      probability, every monetary premium or every market cap is zero),
      the fair market cap is zero. */
  lemma {:induction false} NothingCapturedNoValue(assets: seq<Asset>, rate: real)
    requires rate != -1.0
    requires forall i :: 0 <= i < |assets| ==> Captured(assets[i]) == 0.0
    ensures TotalPV(assets, rate) == 0.0
    decreases |assets|
  {
    if assets != [] {
      var n := |assets| - 1;
      assert forall i :: 0 <= i < n ==> assets[..n][i] == assets[i];
      NothingCapturedNoValue(assets[..n], rate);
      assert Captured(assets[n]) == 0.0;
      PowNonZero(1.0 + rate, assets[n].time);
      assert 0.0 / Pow(1.0 + rate, assets[n].time) == 0.0;
    }
  }

  /** The fair market cap of a concatenation is the sum of the parts'. */
  lemma {:induction false} TotalPVAppend(s: seq<Asset>, t: seq<Asset>, rate: real)
    requires rate != -1.0
    ensures TotalPV(s + t, rate) == TotalPV(s, rate) + TotalPV(t, rate)
    decreases |t|
  {
    if t == [] {
      assert s + t == s;
    } else {
      var n := |t| - 1;
      assert (s + t)[..|s + t| - 1] == s + t[..n];
      TotalPVAppend(s, t[..n], rate);
    }
  }

  /** The fair market cap does not depend on the order in which the assets
      are visited. */
  lemma {:induction false} TotalPVOrderFree(s: seq<Asset>, t: seq<Asset>, rate: real)
    requires rate != -1.0 && multiset(s) == multiset(t)
    ensures TotalPV(s, rate) == TotalPV(t, rate)
    decreases |s|
  {
    if s != [] {
      var n := |s| - 1;
      var x := s[n];
      assert x in multiset(t) by {
        assert s == s[..n] + [x];
      }
      var i :| 0 <= i < |t| && t[i] == x;
      var t' := t[..i] + t[i + 1..];
      assert t == t[..i] + [x] + t[i + 1..];
      assert multiset(s[..n]) == multiset(t') by {
        assert s == s[..n] + [x];
        assert multiset(s) == multiset(s[..n]) + multiset{x};
        assert multiset(t) == multiset(t[..i]) + multiset{x} + multiset(t[i + 1..]);
        assert multiset(t') == multiset(t[..i]) + multiset(t[i + 1..]);
        assert multiset(t) == multiset(t') + multiset{x};
        assert multiset(s[..n]) == multiset(s) - multiset{x};
        assert multiset(t') == multiset(t) - multiset{x};
      }
      TotalPVOrderFree(s[..n], t', rate);
      TotalPVAppend(t[..i] + [x], t[i + 1..], rate);
      TotalPVAppend(t[..i], [x], rate);
      TotalPVAppend(t[..i], t[i + 1..], rate);
      assert [x][..0] == [];
    }
  }

  /** The worked example: a market cap of 10 trillion, half of it monetary
      premium, a 20% capture probability, ten years at 5%, gives a present
      value of 1e12 / 1.05^10 (about 613.9 billion); over a supply of 21
      million that is about $29,234 of fair price. */
  lemma WorkedExample()
    ensures var a := Asset("example", 10.0e12, 0.5, 0.2, 10);
      Captured(a) == 1.0e12
      && PresentValue(a, 0.05) == 1.0e12 / 1.62889462677744140625
      && 29233.0 < PresentValue(a, 0.05) / 21.0e6 < 29235.0
  {
  }
}
