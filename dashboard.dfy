/** The numbers display_main_content derives before rendering: the upside
    against the current price (app.py:221), the banner it selects
    (app.py:234-249) and the projected price path (app.py:255-257); and
    main's choice between showing them and warning that there are no assets
    (app.py:296-312). */
module Dashboard {
  import opened Valuation
  import opened Options

  /** `upside` of app.py:221, in percent. A current price that is not
      positive gives 0. Otherwise the upside is positive exactly when the
      fair price is above the current price, zero exactly when they are
      equal, and the fair price is recovered from it as
      `current * (1 + upside / 100)`. */
  function Upside(fairPrice: real, currentPrice: real): (u: real)
    ensures currentPrice <= 0.0 ==> u == 0.0
    ensures currentPrice > 0.0 ==> (u > 0.0 <==> fairPrice > currentPrice)
    ensures currentPrice > 0.0 ==> (u == 0.0 <==> fairPrice == currentPrice)
    ensures currentPrice > 0.0 ==> fairPrice == currentPrice * (1.0 + u / 100.0)
  {
    if currentPrice > 0.0 then
      var r := fairPrice / currentPrice;
      RatioFacts(fairPrice, currentPrice);
      var u := (r - 1.0) * 100.0;
      assert 1.0 + u / 100.0 == r;
      u
    else 0.0
  }

  /** The ratio of the fair to a positive current price recovers the fair
      price and compares with 1 as the prices compare. */
  lemma RatioFacts(fairPrice: real, currentPrice: real)
    requires currentPrice > 0.0
    ensures currentPrice * (fairPrice / currentPrice) == fairPrice
    ensures fairPrice / currentPrice > 1.0 <==> fairPrice > currentPrice
    ensures fairPrice / currentPrice == 1.0 <==> fairPrice == currentPrice
  {
    RatioCompare(fairPrice / currentPrice, currentPrice, 1.0);
  }

  /** The four call-outs of app.py:234-249. */
  datatype Banner = MassiveDiscount | Undervalued | Overvalued | NearFair

  /** The `if`/`elif` chain of app.py:234-249: above 100 first, then above
      30, then below -10, else neutral. Exactly one banner holds for each
      upside, on these ranges. */
  function ChooseBanner(upside: real): (b: Banner)
    ensures b == MassiveDiscount <==> upside > 100.0
    ensures b == Undervalued <==> 30.0 < upside <= 100.0
    ensures b == Overvalued <==> upside < -10.0
    ensures b == NearFair <==> -10.0 <= upside <= 30.0
  {
    if upside > 100.0 then MassiveDiscount
    else if upside > 30.0 then Undervalued
    else if upside < -10.0 then Overvalued
    else NearFair
  }

  /** The banners ordered from the most bearish to the most bullish. */
  function Rank(b: Banner): nat {
    match b
    case Overvalued => 0
    case NearFair => 1
    case Undervalued => 2
    case MassiveDiscount => 3
  }

  /** A higher upside never selects a more bearish banner. */
  lemma BannerMonotone(u: real, u': real)
    requires u <= u'
    ensures Rank(ChooseBanner(u)) <= Rank(ChooseBanner(u'))
  {
  }

  /** With a positive current price the banner is decided by the ratio of
      fair to current price: above 2 a massive discount, above 1.3
      undervalued, below 0.9 overvalued, otherwise near fair. */
  lemma BannerByPriceRatio(fairPrice: real, currentPrice: real)
    requires currentPrice > 0.0
    ensures var b := ChooseBanner(Upside(fairPrice, currentPrice));
      (b == MassiveDiscount <==> fairPrice > 2.0 * currentPrice)
      && (b == Undervalued <==> 1.3 * currentPrice < fairPrice <= 2.0 * currentPrice)
      && (b == Overvalued <==> fairPrice < 0.9 * currentPrice)
      && (b == NearFair <==> 0.9 * currentPrice <= fairPrice <= 1.3 * currentPrice)
  {
    UpsideThreshold(fairPrice, currentPrice, 100.0);
    UpsideThreshold(fairPrice, currentPrice, 30.0);
    UpsideThreshold(fairPrice, currentPrice, -10.0);
  }

  /** With a positive current price, the upside passes a threshold of `t`
      percent exactly when the fair price passes `1 + t/100` times the
      current price. */
  lemma UpsideThreshold(fairPrice: real, currentPrice: real, t: real)
    requires currentPrice > 0.0
    ensures Upside(fairPrice, currentPrice) > t <==> fairPrice > (1.0 + t / 100.0) * currentPrice
    ensures Upside(fairPrice, currentPrice) < t <==> fairPrice < (1.0 + t / 100.0) * currentPrice
  {
    var r := fairPrice / currentPrice;
    RatioFacts(fairPrice, currentPrice);
    assert Upside(fairPrice, currentPrice) == (r - 1.0) * 100.0;
    RatioCompare(r, currentPrice, 1.0 + t / 100.0);
  }

  /** Scaling both sides of a comparison by a positive price keeps it. */
  lemma RatioCompare(r: real, c: real, k: real)
    requires c > 0.0
    ensures r > k <==> r * c > k * c
    ensures r < k <==> r * c < k * c
  {
    assert r * c - k * c == (r - k) * c;
  }

  /** `max_time` of app.py:255: the longest horizon among the assets, or 1
      when there are none. */
  function MaxHorizon(assets: seq<Asset>): (m: nat)
    ensures assets == [] ==> m == 1
    ensures forall i :: 0 <= i < |assets| ==> assets[i].time <= m
    ensures assets != [] ==> exists i :: 0 <= i < |assets| && assets[i].time == m
    decreases |assets|
  {
    if assets == [] then 1
    else if |assets| == 1 then assets[0].time
    else
      var rest := MaxHorizon(assets[1..]);
      assert forall i :: 1 <= i < |assets| ==> assets[i] == assets[1..][i - 1];
      if assets[0].time >= rest then assets[0].time else rest
  }

  /** `proj_prices` of app.py:256-257: the fair price compounded at the
      discount rate for the years 0 to `maxTime`. It starts at the fair
      price and grows by `1 + rate` each year. */
  function Projection(fairPrice: real, rate: real, maxTime: nat): (p: seq<real>)
    ensures |p| == maxTime + 1 && p[0] == fairPrice
    ensures forall y :: 0 < y < |p| ==> p[y] == p[y - 1] * (1.0 + rate)
  {
    seq(maxTime + 1, y requires 0 <= y <= maxTime => fairPrice * Pow(1.0 + rate, y))
  }

  /** An asset's own share of the fair price, projected to its horizon,
      reaches its captured value over the supply: the path undoes the
      discounting. */
  lemma ProjectionUndoesDiscount(a: Asset, rate: real, supply: real)
    requires rate != -1.0 && supply != 0.0
    ensures Projection(PresentValue(a, rate) / supply, rate, a.time)[a.time] == Captured(a) / supply
  {
    DiscountRoundTrip(a, rate);
    var d := Pow(1.0 + rate, a.time);
    assert PresentValue(a, rate) / supply * d == PresentValue(a, rate) * d / supply;
  }

  /** What main computes for the page when the sidebar returned assets. */
  datatype View = View(fairMktcap: real, fairPrice: real, breakdown: seq<Row>,
                       upside: real, banner: Banner, projection: seq<real>)

  /** main (app.py:296-312) without the rendering: no assets gives the
      warning (`None`); otherwise the valuation, the upside against the
      current price, its banner and the projection up to the longest
      horizon. */
  method Evaluate(assets: seq<Asset>, rate: real, supply: real, currentPrice: real)
    returns (view: Option<View>)
    requires rate != -1.0 && supply != 0.0
    ensures view.None? <==> assets == []
    ensures view.Some? ==> view.value.fairMktcap == TotalPV(assets, rate)
    ensures view.Some? ==> view.value.fairPrice == TotalPV(assets, rate) / supply
    ensures view.Some? ==> |view.value.breakdown| == |assets|
    ensures view.Some? ==> forall i :: 0 <= i < |assets| ==>
              view.value.breakdown[i] == Row(assets[i].name, PresentValue(assets[i], rate))
    ensures view.Some? ==> view.value.upside == Upside(view.value.fairPrice, currentPrice)
    ensures view.Some? ==> view.value.banner == ChooseBanner(view.value.upside)
    ensures view.Some? ==> view.value.projection == Projection(view.value.fairPrice, rate, MaxHorizon(assets))
  {
    if assets == [] {
      return None;
    }
    var fairMktcap, fairPrice, breakdown := ComputeValuations(assets, rate, supply);
    var upside := Upside(fairPrice, currentPrice);
    var banner := ChooseBanner(upside);
    var projection := Projection(fairPrice, rate, MaxHorizon(assets));
    return Some(View(fairMktcap, fairPrice, breakdown, upside, banner, projection));
  }
}
