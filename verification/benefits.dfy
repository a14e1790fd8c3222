/**
 The benefit calculator of the spongy-moth (Slow-the-Spread) carbon tool: a
 stateless chain of unit conversions and products that turns the seven form
 inputs into the carbon, cars-equivalent and social-cost-of-carbon figures.

 The calculation runs two parallel chains over the same protected area and
 mortality fraction: the one-time carbon pulse avoided (driven by the carbon
 stock per hectare) and the annual sink preserved (driven by the yearly
 sequestration per hectare). `BenefitOf` is that chain, written once.

 Every quantity is an exact `real`; the rounding of the program's
 double-precision arithmetic is not modelled.
 */
module Benefits {

  /** Hectares per international acre. */
  const AcreToHa: real := 0.40468564224

  /** Tonnes of CO2 per tonne of carbon (the molecular mass ratio 44/12, rounded). */
  const CToCo2: real := 3.667

  /** The seven values the form collects. The mortality slider has integer
      bounds and step, so it yields an integer percentage. */
  datatype Inputs = Inputs(
    areaAcres: real,          // area protected, acres
    mortalityPercent: int,    // defoliation-induced mortality avoided, %
    carbonStock: real,        // aboveground carbon stock, t C / ha
    sequestrationRate: real,  // annual net sequestration, t C / ha / yr
    sccLow: real,             // social cost of carbon, low, $ / t CO2
    sccHigh: real,            // social cost of carbon, high, $ / t CO2
    carEmissions: real        // average car emissions, t CO2 / car / yr
  )

  /** What one chain yields: tonnes of carbon, tonnes of CO2, the number of
      cars with the same yearly emissions, and the CO2 priced at the low and
      the high social cost of carbon. */
  datatype CarbonBenefit = CarbonBenefit(
    carbonTC: real,
    co2T: real,
    cars: real,
    valueLow: real,
    valueHigh: real
  ) {
    /** Every figure multiplied by `k`. */
    function Scaled(k: real): (s: CarbonBenefit) {
      CarbonBenefit(k * carbonTC, k * co2T, k * cars, k * valueLow, k * valueHigh)
    }
  }

  /** Every quantity the calculation block names. The one-time chain holds
      `carbon_lost_tC`, `co2_avoided_t`, `cars_one_time` and the two
      `one_time_value` figures; the annual chain holds `annual_c_uptake_tC`,
      `annual_co2_preserved_t`, `cars_annual` and the two `annual_value`
      figures. */
  datatype Outputs = Outputs(
    areaHa: real,
    mortalityFrac: real,
    oneTime: CarbonBenefit,
    annual: CarbonBenefit
  )

  /** The domain the input widgets enforce through their minimum and maximum
      values; the area has a lower bound only, and nothing orders the two
      social-cost bounds. Within it the car-emission guard never takes its
      fallback and every area is positive. */
  function ValidInputs(i: Inputs): (valid: bool)
    ensures valid ==> 0.0 < i.carEmissions && 0.0 < i.areaAcres
  {
    && 1.0 <= i.areaAcres
    && 1 <= i.mortalityPercent <= 90
    && 10.0 <= i.carbonStock <= 300.0
    && 0.1 <= i.sequestrationRate <= 3.0
    && 0.0 <= i.sccLow <= 500.0
    && 0.0 <= i.sccHigh <= 500.0
    && 1.0 <= i.carEmissions <= 10.0
  }

  /** The values the form starts with. */
  function Defaults(): (d: Inputs)
    ensures ValidInputs(d)
  {
    Inputs(100000.0, 10, 50.0, 0.5, 51.0, 190.0, 4.6)
  }

  /** Acre to hectare conversion; converting back recovers the acreage. */
  function Hectares(acres: real): (ha: real)
    ensures ha / AcreToHa == acres
  {
    acres * AcreToHa
  }

  /** A percentage as a fraction of one. */
  function Fraction(percent: int): (frac: real)
    ensures frac * 100.0 == percent as real
  {
    percent as real / 100.0
  }

  /** Tonnes of carbon held, or taken up, by the trees whose death is avoided:
      the area times the mortality fraction times a per-hectare figure, so that
      each affected hectare carries exactly the per-hectare figure. */
  function AffectedCarbon(areaHa: real, mortalityFrac: real, perHa: real): (c: real)
    ensures areaHa * mortalityFrac != 0.0 ==> c / (areaHa * mortalityFrac) == perHa
  {
    areaHa * mortalityFrac * perHa
  }

  /** Mass of carbon to mass of CO2; dividing by the ratio recovers the carbon. */
  function Co2FromCarbon(carbon: real): (co2: real)
    ensures co2 / CToCo2 == carbon
  {
    carbon * CToCo2
  }

  /** The number of cars whose yearly emissions equal `co2` tonnes. A
      non-positive per-car figure yields no cars instead of a division. */
  function CarsEquivalent(co2: real, carEmissions: real): (cars: real)
    ensures carEmissions <= 0.0 ==> cars == 0.0
    ensures carEmissions > 0.0 ==> cars * carEmissions == co2
  {
    if carEmissions > 0.0 then co2 / carEmissions else 0.0
  }

  /** One chain: carbon over the affected area, its CO2 equivalent, the
      guarded cars-equivalent and the two dollar values. */
  function BenefitOf(areaHa: real, mortalityFrac: real, perHa: real,
                     sccLow: real, sccHigh: real, carEmissions: real): (b: CarbonBenefit)
    ensures b.co2T / CToCo2 == b.carbonTC
    ensures carEmissions <= 0.0 ==> b.cars == 0.0
    ensures carEmissions > 0.0 ==> b.cars * carEmissions == b.co2T
  {
    var carbon := AffectedCarbon(areaHa, mortalityFrac, perHa);
    var co2 := Co2FromCarbon(carbon);
    CarbonBenefit(carbon, co2, CarsEquivalent(co2, carEmissions), co2 * sccLow, co2 * sccHigh)
  }

  /** The whole calculation block: the area and mortality conversions, then
      the one-time chain on the carbon stock and the annual chain on the
      sequestration rate. */
  function Compute(i: Inputs): (o: Outputs)
    ensures o.areaHa / AcreToHa == i.areaAcres
    ensures o.mortalityFrac * 100.0 == i.mortalityPercent as real
    ensures i.carEmissions <= 0.0 ==> o.oneTime.cars == 0.0 && o.annual.cars == 0.0
    ensures i.carEmissions > 0.0 ==>
              && o.oneTime.cars * i.carEmissions == o.oneTime.co2T
              && o.annual.cars * i.carEmissions == o.annual.co2T
  {
    var areaHa := Hectares(i.areaAcres);
    var mortalityFrac := Fraction(i.mortalityPercent);
    Outputs(
      areaHa,
      mortalityFrac,
      BenefitOf(areaHa, mortalityFrac, i.carbonStock, i.sccLow, i.sccHigh, i.carEmissions),
      BenefitOf(areaHa, mortalityFrac, i.sequestrationRate, i.sccLow, i.sccHigh, i.carEmissions)
    )
  }
}
