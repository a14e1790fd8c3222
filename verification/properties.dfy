/** What the benefit calculation promises: the car-emission guard, the closed
    forms of the two CO2 figures, positivity and bounds over the widget
    domain, linearity in the area, the identity that links the one-time and
    annual chains, the (unenforced) ordering of the social-cost values, and
    the exact figures for the form's default inputs.

    Most facts are first proved about one chain (`BenefitOf`) over plain
    reals and then lifted to both chains of `Compute`. */
module BenefitProperties {
  import opened Benefits
  import RealFacts

  // ---------------------------------------------------------------------
  // The car-emission guard

  /** An evaluation with both cars-equivalents blanked out. */
  function WithoutCars(o: Outputs): (w: Outputs) {
    o.(oneTime := o.oneTime.(cars := 0.0), annual := o.annual.(cars := 0.0))
  }

  /** The car-emission guard affects the cars-equivalents only: changing the
      per-car figure leaves every other output as it was, and a non-positive
      figure makes both cars-equivalents zero. */
  lemma GuardOnlyTouchesCars(i: Inputs, carEmissions: real)
    ensures WithoutCars(Compute(i)) == WithoutCars(Compute(i.(carEmissions := carEmissions)))
    ensures carEmissions <= 0.0 ==>
              && Compute(i.(carEmissions := carEmissions)).oneTime.cars == 0.0
              && Compute(i.(carEmissions := carEmissions)).annual.cars == 0.0
  {}

  // ---------------------------------------------------------------------
  // Closed forms and the cross identity

  /** Both CO2 figures written out as one product of the inputs and the two
      conversion factors, and each dollar value as that CO2 product (not the
      carbon) priced at the low or the high social cost. */
  lemma ClosedForm(i: Inputs)
    ensures Compute(i).oneTime.co2T
         == i.areaAcres * 0.40468564224 * (i.mortalityPercent as real / 100.0) * i.carbonStock * 3.667
    ensures Compute(i).annual.co2T
         == i.areaAcres * 0.40468564224 * (i.mortalityPercent as real / 100.0) * i.sequestrationRate * 3.667
    ensures Compute(i).oneTime.valueLow
         == i.areaAcres * 0.40468564224 * (i.mortalityPercent as real / 100.0) * i.carbonStock * 3.667 * i.sccLow
    ensures Compute(i).oneTime.valueHigh
         == i.areaAcres * 0.40468564224 * (i.mortalityPercent as real / 100.0) * i.carbonStock * 3.667 * i.sccHigh
    ensures Compute(i).annual.valueLow
         == i.areaAcres * 0.40468564224 * (i.mortalityPercent as real / 100.0) * i.sequestrationRate * 3.667 * i.sccLow
    ensures Compute(i).annual.valueHigh
         == i.areaAcres * 0.40468564224 * (i.mortalityPercent as real / 100.0) * i.sequestrationRate * 3.667 * i.sccHigh
  {
    ChainClosedForm(i.areaAcres, i.mortalityPercent, i.carbonStock, i.sccLow, i.sccHigh, i.carEmissions);
    ChainClosedForm(i.areaAcres, i.mortalityPercent, i.sequestrationRate, i.sccLow, i.sccHigh, i.carEmissions);
  }

  /** One chain's CO2 and dollar values as products of the inputs and the
      two conversion factors written out as literals. */
  lemma ChainClosedForm(acres: real, percent: int, perHa: real, lo: real, hi: real, e: real)
    ensures var b := BenefitOf(Hectares(acres), Fraction(percent), perHa, lo, hi, e);
      && b.co2T == acres * 0.40468564224 * (percent as real / 100.0) * perHa * 3.667
      && b.valueLow == acres * 0.40468564224 * (percent as real / 100.0) * perHa * 3.667 * lo
      && b.valueHigh == acres * 0.40468564224 * (percent as real / 100.0) * perHa * 3.667 * hi
  {
    var b := BenefitOf(Hectares(acres), Fraction(percent), perHa, lo, hi, e);
    var x := acres * 0.40468564224 * (percent as real / 100.0) * perHa * 3.667;
    assert b.co2T == x;
    PricedAt(b.valueLow, b.co2T, x, lo);
    PricedAt(b.valueHigh, b.co2T, x, hi);
  }

  /** A value that prices a CO2 figure prices anything equal to that figure. */
  lemma PricedAt(value: real, co2: real, x: real, price: real)
    requires value == co2 * price && co2 == x
    ensures value == x * price
  {}

  /** Two chains over the same area and mortality fraction differ only in
      their per-hectare figure: each CO2 figure times the other chain's
      per-hectare figure gives the same product. */
  lemma BenefitCross(h: real, f: real, s: real, q: real, lo: real, hi: real, e: real)
    ensures BenefitOf(h, f, q, lo, hi, e).co2T * s == BenefitOf(h, f, s, lo, hi, e).co2T * q
  {
    RealFacts.SwapLast(h, f, s, q, CToCo2);
  }

  /** The one-time and annual chains share the base area x mortality x CO2
      ratio: the annual CO2 figure times the carbon stock equals the one-time
      CO2 figure times the sequestration rate, so the ratio of stock to rate
      converts the annual figure into the one-time one. */
  lemma CrossIdentity(i: Inputs)
    ensures Compute(i).annual.co2T * i.carbonStock == Compute(i).oneTime.co2T * i.sequestrationRate
    ensures i.sequestrationRate != 0.0 ==>
              Compute(i).annual.co2T * (i.carbonStock / i.sequestrationRate) == Compute(i).oneTime.co2T
  {
    var o := Compute(i);
    BenefitCross(o.areaHa, o.mortalityFrac, i.carbonStock, i.sequestrationRate, i.sccLow, i.sccHigh, i.carEmissions);
  }

  // ---------------------------------------------------------------------
  // Linearity in the area

  /** Scaling the carbon mass scales the CO2 mass. */
  lemma Co2Scales(k: real, c: real, c': real)
    requires c' == k * c
    ensures Co2FromCarbon(c') == k * Co2FromCarbon(c)
  {
    RealFacts.ScaleFactor(k, c, c', CToCo2, CToCo2);
  }

  /** Scaling the CO2 tonnage scales the cars-equivalent, on both sides of the
      guard. */
  lemma CarsScale(k: real, x: real, x': real, e: real)
    requires x' == k * x
    ensures CarsEquivalent(x', e) == k * CarsEquivalent(x, e)
  {
    if e > 0.0 {
      RealFacts.ScaleQuotient(k, x, e);
    }
  }

  /** Scaling the area scales the affected carbon by the same factor. */
  lemma AffectedCarbonScales(k: real, h: real, h': real, f: real, s: real)
    requires h' == k * h
    ensures AffectedCarbon(h', f, s) == k * AffectedCarbon(h, f, s)
  {
    RealFacts.ScaleProduct(k, h, h', f, f, s, s);
  }

  /** A chain has no offsets: scaling its area scales every figure it yields
      by the same factor. */
  lemma BenefitScales(k: real, h: real, h': real, f: real, s: real, lo: real, hi: real, e: real)
    requires h' == k * h
    ensures BenefitOf(h', f, s, lo, hi, e) == BenefitOf(h, f, s, lo, hi, e).Scaled(k)
  {
    var c, c' := AffectedCarbon(h, f, s), AffectedCarbon(h', f, s);
    AffectedCarbonScales(k, h, h', f, s);
    var x, x' := Co2FromCarbon(c), Co2FromCarbon(c');
    Co2Scales(k, c, c');
    RealFacts.ScaleFactor(k, x, x', lo, lo);
    RealFacts.ScaleFactor(k, x, x', hi, hi);
    CarsScale(k, x, x', e);
  }

  /** `b` is `a` with every area-proportional figure scaled by `k`. */
  predicate ScaledBy(a: Outputs, b: Outputs, k: real) {
    && b.areaHa == k * a.areaHa
    && b.mortalityFrac == a.mortalityFrac
    && b.oneTime == a.oneTime.Scaled(k)
    && b.annual == a.annual.Scaled(k)
  }

  /** Scaling the acreage scales the hectares and every figure of both chains
      by the same factor, and leaves the mortality fraction alone. */
  lemma LinearInArea(i: Inputs, k: real)
    ensures ScaledBy(Compute(i), Compute(i.(areaAcres := k * i.areaAcres)), k)
  {
    var j := i.(areaAcres := k * i.areaAcres);
    var o, p := Compute(i), Compute(j);
    assert p.areaHa == k * o.areaHa;
    BenefitScales(k, o.areaHa, p.areaHa, o.mortalityFrac, i.carbonStock, i.sccLow, i.sccHigh, i.carEmissions);
    BenefitScales(k, o.areaHa, p.areaHa, o.mortalityFrac, i.sequestrationRate, i.sccLow, i.sccHigh, i.carEmissions);
  }

  // ---------------------------------------------------------------------
  // Signs, order and bounds over the widget domain

  /** Affected carbon is positive when all three of its factors are. */
  lemma AffectedCarbonPositive(h: real, f: real, s: real)
    requires 0.0 < h && 0.0 < f && 0.0 < s
    ensures 0.0 < AffectedCarbon(h, f, s)
  {
    RealFacts.MulPos(h, f);
    RealFacts.MulPos(h * f, s);
  }

  /** With a positive area, fraction and per-hectare figure, non-negative
      social costs and one to ten tonnes per car, a chain yields positive
      carbon, CO2 and cars, and non-negative dollar values. */
  lemma BenefitPositive(h: real, f: real, s: real, lo: real, hi: real, e: real)
    requires 0.0 < h && 0.0 < f && 0.0 < s
    requires 0.0 <= lo && 0.0 <= hi && 1.0 <= e <= 10.0
    ensures var b := BenefitOf(h, f, s, lo, hi, e);
      0.0 < b.carbonTC && 0.0 < b.co2T && 0.0 < b.cars && 0.0 <= b.valueLow && 0.0 <= b.valueHigh
  {
    var b := BenefitOf(h, f, s, lo, hi, e);
    AffectedCarbonPositive(h, f, s);
    assert 0.0 < b.co2T;
    RealFacts.QuotientBounds(b.co2T, e);
    RealFacts.MulNonNeg(b.co2T, lo);
    RealFacts.MulNonNeg(b.co2T, hi);
  }

  /** Over the widget domain every carbon, CO2 and cars figure is strictly
      positive and every dollar value is non-negative. */
  lemma PositiveOnDomain(i: Inputs)
    requires ValidInputs(i)
    ensures Compute(i).areaHa > 0.0 && Compute(i).mortalityFrac > 0.0
    ensures var b := Compute(i).oneTime;
      b.carbonTC > 0.0 && b.co2T > 0.0 && b.cars > 0.0 && b.valueLow >= 0.0 && b.valueHigh >= 0.0
    ensures var b := Compute(i).annual;
      b.carbonTC > 0.0 && b.co2T > 0.0 && b.cars > 0.0 && b.valueLow >= 0.0 && b.valueHigh >= 0.0
  {
    var o := Compute(i);
    BenefitPositive(o.areaHa, o.mortalityFrac, i.carbonStock, i.sccLow, i.sccHigh, i.carEmissions);
    BenefitPositive(o.areaHa, o.mortalityFrac, i.sequestrationRate, i.sccLow, i.sccHigh, i.carEmissions);
  }

  /** With a positive CO2 figure, a chain's two dollar values are ordered
      exactly as the two social costs are. */
  lemma ValuesFollowScc(h: real, f: real, s: real, lo: real, hi: real, e: real)
    requires 0.0 < BenefitOf(h, f, s, lo, hi, e).co2T
    ensures lo <= hi <==> BenefitOf(h, f, s, lo, hi, e).valueLow <= BenefitOf(h, f, s, lo, hi, e).valueHigh
  {
    RealFacts.MulLeCancel(BenefitOf(h, f, s, lo, hi, e).co2T, lo, hi);
  }

  /** Nothing orders the two social-cost inputs, and over the widget domain
      the value pairs follow them exactly: low <= high in the outputs if and
      only if low <= high in the inputs, so inverted inputs give inverted
      values without any error. */
  lemma SccOrderReflected(i: Inputs)
    requires ValidInputs(i)
    ensures i.sccLow <= i.sccHigh <==> Compute(i).oneTime.valueLow <= Compute(i).oneTime.valueHigh
    ensures i.sccLow <= i.sccHigh <==> Compute(i).annual.valueLow <= Compute(i).annual.valueHigh
  {
    PositiveOnDomain(i);
    var o := Compute(i);
    ValuesFollowScc(o.areaHa, o.mortalityFrac, i.carbonStock, i.sccLow, i.sccHigh, i.carEmissions);
    ValuesFollowScc(o.areaHa, o.mortalityFrac, i.sequestrationRate, i.sccLow, i.sccHigh, i.carEmissions);
  }

  /** Raising the area, the mortality fraction or the per-hectare figure
      never lowers the affected carbon. */
  lemma AffectedCarbonMonotone(h: real, f: real, s: real, h': real, f': real, s': real)
    requires 0.0 <= h <= h' && 0.0 <= f <= f' && 0.0 <= s <= s'
    ensures AffectedCarbon(h, f, s) <= AffectedCarbon(h', f', s')
  {
    RealFacts.MulLeBoth(h, h', f, f');
    RealFacts.MulNonNeg(h, f);
    RealFacts.MulLeBoth(h * f, h' * f', s, s');
  }

  /** Tonnes of CO2 per acre at the smallest and largest mortality and
      carbon figures the widgets allow. */
  const MinCo2PerAcre: real := AcreToHa * Fraction(1) * 10.0 * CToCo2
  const MaxCo2PerAcre: real := AcreToHa * Fraction(90) * 300.0 * CToCo2
  const MinAnnualCo2PerAcre: real := AcreToHa * Fraction(1) * 0.1 * CToCo2
  const MaxAnnualCo2PerAcre: real := AcreToHa * Fraction(90) * 3.0 * CToCo2

  /** More carbon never means less CO2. */
  lemma Co2Monotone(c: real, c': real)
    requires c <= c'
    ensures Co2FromCarbon(c) <= Co2FromCarbon(c')
  {
    RealFacts.MulLeRight(c, c', CToCo2);
  }

  /** The CO2 a chain yields at fixed mortality and per-hectare figures, as
      the acreage times the corresponding per-acre figure. */
  lemma PerAcre(acres: real, f: real, s: real)
    ensures Co2FromCarbon(AffectedCarbon(Hectares(acres), f, s)) == acres * (AcreToHa * f * s * CToCo2)
  {}

  /** A chain's CO2 figure lies between the per-acre figures at the smallest
      and the largest mortality fraction and per-hectare figure. */
  lemma ChainPerAcreBounds(acres: real, f: real, s: real, fLo: real, sLo: real, fHi: real, sHi: real)
    requires 0.0 <= acres && 0.0 <= fLo <= f <= fHi && 0.0 <= sLo <= s <= sHi
    ensures acres * (AcreToHa * fLo * sLo * CToCo2) <= Co2FromCarbon(AffectedCarbon(Hectares(acres), f, s))
    ensures Co2FromCarbon(AffectedCarbon(Hectares(acres), f, s)) <= acres * (AcreToHa * fHi * sHi * CToCo2)
  {
    var h := Hectares(acres);
    RealFacts.MulNonNeg(acres, AcreToHa);
    AffectedCarbonMonotone(h, fLo, sLo, h, f, s);
    AffectedCarbonMonotone(h, f, s, h, fHi, sHi);
    Co2Monotone(AffectedCarbon(h, fLo, sLo), AffectedCarbon(h, f, s));
    Co2Monotone(AffectedCarbon(h, f, s), AffectedCarbon(h, fHi, sHi));
    PerAcre(acres, fLo, sLo);
    PerAcre(acres, fHi, sHi);
  }

  /** Over the widget domain each CO2 figure lies between the area times the
      per-acre figure at the domain's lower corner and at its upper corner. */
  lemma PerAcreBounds(i: Inputs)
    requires ValidInputs(i)
    ensures i.areaAcres * MinCo2PerAcre <= Compute(i).oneTime.co2T <= i.areaAcres * MaxCo2PerAcre
    ensures i.areaAcres * MinAnnualCo2PerAcre <= Compute(i).annual.co2T <= i.areaAcres * MaxAnnualCo2PerAcre
  {
    var f := Fraction(i.mortalityPercent);
    ChainPerAcreBounds(i.areaAcres, f, i.carbonStock, Fraction(1), 10.0, Fraction(90), 300.0);
    ChainPerAcreBounds(i.areaAcres, f, i.sequestrationRate, Fraction(1), 0.1, Fraction(90), 3.0);
  }

  /** With one to ten tonnes per car, the cars-equivalent lies between a tenth
      of the CO2 tonnage and the tonnage itself. */
  lemma CarsBounds(i: Inputs)
    requires ValidInputs(i)
    ensures Compute(i).oneTime.co2T / 10.0 <= Compute(i).oneTime.cars <= Compute(i).oneTime.co2T
    ensures Compute(i).annual.co2T / 10.0 <= Compute(i).annual.cars <= Compute(i).annual.co2T
  {
    PositiveOnDomain(i);
    RealFacts.QuotientBounds(Compute(i).oneTime.co2T, i.carEmissions);
    RealFacts.QuotientBounds(Compute(i).annual.co2T, i.carEmissions);
  }

  /** Protecting more area, avoiding more mortality, or assuming more carbon
      per hectare never lowers the CO2 benefit. */
  lemma MonotoneBenefit(i: Inputs, j: Inputs)
    requires ValidInputs(i) && ValidInputs(j)
    requires i.areaAcres <= j.areaAcres && i.mortalityPercent <= j.mortalityPercent
    requires i.carbonStock <= j.carbonStock && i.sequestrationRate <= j.sequestrationRate
    ensures Compute(i).oneTime.co2T <= Compute(j).oneTime.co2T
    ensures Compute(i).annual.co2T <= Compute(j).annual.co2T
  {
    var o, p := Compute(i), Compute(j);
    AffectedCarbonMonotone(o.areaHa, o.mortalityFrac, i.carbonStock, p.areaHa, p.mortalityFrac, j.carbonStock);
    AffectedCarbonMonotone(o.areaHa, o.mortalityFrac, i.sequestrationRate, p.areaHa, p.mortalityFrac, j.sequestrationRate);
  }

  // ---------------------------------------------------------------------
  // The default figures

  /** The form's default inputs lie in the widget domain and give these exact
      figures. */
  lemma DefaultFigures()
    ensures ValidInputs(Defaults())
    ensures Compute(Defaults()).areaHa == 40468.564224
    ensures Compute(Defaults()).oneTime.carbonTC == 202342.82112
    ensures Compute(Defaults()).oneTime.co2T == 741991.12504704
    ensures Compute(Defaults()).annual.carbonTC == 2023.4282112
    ensures Compute(Defaults()).annual.co2T == 7419.9112504704
    ensures Compute(Defaults()).oneTime.valueLow == 37841547.37739904
    ensures Compute(Defaults()).oneTime.valueHigh == 140978313.7589376
    ensures Compute(Defaults()).annual.valueLow == 378415.4737739904
    ensures Compute(Defaults()).annual.valueHigh == 1409783.137589376
    ensures Compute(Defaults()).oneTime.cars * 4.6 == 741991.12504704
  {}
}
