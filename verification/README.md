# STS carbon benefits — a Dafny model of the calculation

The STS (Slow-the-Spread) carbon calculator estimates what preventing spongy
moth–induced tree mortality on a forested area is worth. It takes seven
form inputs:
- the protected area, in acres;
- the percentage of mortality avoided;
- the carbon stock per hectare;
- the yearly sequestration per hectare;
- a low and a high social cost of carbon (SCC);
- the average yearly emissions of one car.

It turns them into:
- the area in hectares;
- two carbon/CO2 chains: the one-time carbon pulse whose release is avoided, and the annual sink that the surviving trees keep;
- for each chain, a cars-equivalent and the CO2 priced at the low and at the high SCC.

The model has three modules:

- `Benefits` (`benefits.dfy`):
  - the conversion constants (0.40468564224 ha per acre, 3.667 t CO2 per t C);
  - the `Inputs` and `Outputs` records, and the `CarbonBenefit` record of one chain;
  - the `ValidInputs` domain that the input widgets enforce;
  - the form's `Defaults`;
  - the conversion steps, the guarded cars-equivalent, one chain (`BenefitOf`) and the whole calculation (`Compute`).

  The mortality slider has integer bounds and an integer step, so the percentage is an `int`. Every other quantity is an exact `real`.
- `BenefitProperties` (`properties.dfy`) holds the properties of the calculation. Most are proved once for a single chain and then lifted to both chains of `Compute`.
- `RealFacts` (`real_facts.dfy`) holds small facts about products and quotients of reals that the proofs use one step at a time.

In exact arithmetic, the constants at lines 74-75 give the following for the default inputs:
- 741,991.12504704 t of CO2 avoided;
- a one-time low value of $37,841,547.37739904;
- a one-time high value of $140,978,313.7589376.

`DefaultFigures` pins these exact figures.

## Model

| member | source | states |
|---|---|---|
| Benefits.ValidInputs | STS-carbon-app.py:17-67 | the widget minimum and maximum values (area bounded below only, mortality 1-90, stock 10-300, sequestration 0.1-3.0, each SCC 0-500, car emissions 1-10); every input inside them has a positive per-car figure, so the guard's fallback at lines 91-92 is never taken, and a positive area |
| Benefits.Defaults | STS-carbon-app.py:17-67 | the widgets' starting values (100000 acres, 10 %, 50 t C/ha, 0.5 t C/ha/yr, $51 and $190, 4.6 t per car) lie inside the widget bounds |
| Benefits.Hectares | STS-carbon-app.py:74-77 | acres become hectares with the factor 0.40468564224; dividing by the factor recovers the acreage |
| Benefits.Fraction | STS-carbon-app.py:78 | the mortality percentage becomes a fraction; one hundred times the fraction is the percentage |
| Benefits.AffectedCarbon | STS-carbon-app.py:81-87 | the carbon of the affected area is area × mortality fraction × per-hectare figure: divided by the affected hectares (area × fraction, when non-zero) it gives back exactly the per-hectare figure |
| Benefits.Co2FromCarbon | STS-carbon-app.py:83-88 | carbon becomes CO2 with the ratio 3.667; dividing by the ratio recovers the carbon |
| Benefits.CarsEquivalent | STS-carbon-app.py:91-92 | the division guard: a non-positive per-car figure gives exactly zero cars; a positive one gives a number of cars that, times the per-car figure, is exactly the CO2 tonnage |
| Benefits.BenefitOf | STS-carbon-app.py:80-99 | one chain: its CO2 divided by the ratio is its carbon, and its cars-equivalent obeys the guard in both directions |
| Benefits.Compute | STS-carbon-app.py:73-99 | the hectares convert back to the input acreage, one hundred times the mortality fraction is the input percentage, and both cars-equivalents obey the guard: zero when the per-car figure is non-positive, otherwise cars times the per-car figure equals that chain's CO2 |
| BenefitProperties.GuardOnlyTouchesCars | STS-carbon-app.py:90-92 | changing the per-car figure changes no output except the two cars-equivalents, and a non-positive figure makes both exactly zero |
| BenefitProperties.ClosedForm | STS-carbon-app.py:74-99 | each CO2 figure equals acres × 0.40468564224 × (percent / 100) × per-hectare figure × 3.667, with the carbon stock for the one-time pulse and the sequestration rate for the annual sink; each of the four dollar values is that CO2 product times the low or the high SCC |
| BenefitProperties.ChainClosedForm | STS-carbon-app.py:77-99 | for every input, one chain's CO2 is acres × 0.40468564224 × (percent / 100) × per-hectare figure × 3.667, and its low and high dollar values are that CO2 product, not the carbon, times the low and the high SCC |
| BenefitProperties.BenefitCross | STS-carbon-app.py:80-88 | two chains over the same area and fraction: each one's CO2 times the other's per-hectare figure gives the same product |
| BenefitProperties.CrossIdentity | STS-carbon-app.py:82-88 | annual CO2 × carbon stock = one-time CO2 × sequestration rate; with a non-zero rate, annual CO2 × (stock / rate) is the one-time CO2 |
| BenefitProperties.AffectedCarbonScales | STS-carbon-app.py:82 | scaling the area by k scales area × fraction × per-hectare figure by k |
| BenefitProperties.Co2Scales | STS-carbon-app.py:83 | scaling the carbon by k scales its CO2 by k |
| BenefitProperties.CarsScale | STS-carbon-app.py:91-92 | scaling the CO2 by k scales the cars-equivalent by k, on either side of the guard |
| BenefitProperties.BenefitScales | STS-carbon-app.py:80-99 | a chain on k times the area is the chain on the area with all five figures multiplied by k |
| BenefitProperties.LinearInArea | STS-carbon-app.py:77-99 | for every k, k times the acreage gives k times the hectares and k times every carbon, CO2, cars and dollar figure of both chains; the mortality fraction is unchanged |
| BenefitProperties.AffectedCarbonPositive | STS-carbon-app.py:82-87 | the affected carbon is positive when area, fraction and per-hectare figure are |
| BenefitProperties.BenefitPositive | STS-carbon-app.py:80-99 | with positive area, fraction and per-hectare figure, non-negative SCCs and 1-10 t per car, a chain has positive carbon, CO2 and cars and non-negative values |
| BenefitProperties.PositiveOnDomain | STS-carbon-app.py:17-99 | within the widget bounds, hectares, fraction, every carbon, CO2 and cars figure are strictly positive and all four dollar values are non-negative |
| BenefitProperties.ValuesFollowScc | STS-carbon-app.py:94-99 | with positive CO2, low SCC ≤ high SCC if and only if low value ≤ high value |
| BenefitProperties.SccOrderReflected | STS-carbon-app.py:47-99 | nothing orders the two SCC inputs; within the widget bounds, the one-time and the annual value pairs are ordered exactly when the SCC inputs are, so inverted inputs give inverted values |
| BenefitProperties.AffectedCarbonMonotone | STS-carbon-app.py:82-87 | raising area, fraction or per-hectare figure (all non-negative) never lowers the affected carbon |
| BenefitProperties.Co2Monotone | STS-carbon-app.py:83-88 | more carbon never gives less CO2 |
| BenefitProperties.PerAcre | STS-carbon-app.py:77-88 | a chain's CO2 is the acreage times the per-acre product of the two factors, the fraction and the per-hectare figure |
| BenefitProperties.ChainPerAcreBounds | STS-carbon-app.py:77-88 | with fraction and per-hectare figure between given bounds, a chain's CO2 lies between the acreage times the per-acre figures at those bounds |
| BenefitProperties.PerAcreBounds | STS-carbon-app.py:24-88 | within the widget bounds, each CO2 figure lies between the acreage times the per-acre CO2 at 1 % mortality with the lowest stock or rate, and at 90 % mortality with the highest |
| BenefitProperties.CarsBounds | STS-carbon-app.py:61-92 | within the widget bounds (1-10 t per car), each cars-equivalent lies between a tenth of its CO2 tonnage and the tonnage itself |
| BenefitProperties.MonotoneBenefit | STS-carbon-app.py:77-88 | within the widget bounds, more area, more mortality avoided, more stock or more sequestration never lowers either CO2 figure |
| BenefitProperties.DefaultFigures | STS-carbon-app.py:17-99 | the default inputs are in the widget domain, and they give exactly 40468.564224 ha, 202342.82112 t C and 741991.12504704 t CO2 one-time, 2023.4282112 t C and 7419.9112504704 t CO2 a year, and the four dollar values; their one-time cars times 4.6 is the one-time CO2 |

## Left out

- The Streamlit page (lines 1-67 and 101-175): titles, columns, widgets and metrics. Only the widgets' minimum, maximum and default values enter the model, as `ValidInputs` and `Defaults`.
- The widgets' `step` values, because the calculation does not depend on them.
- Display formatting (lines 108-167): scaling to Mt and kt, thousands separators and rounding in the formatted strings.
- The one-time column's rendering (lines 119-135). It shows `annual_value_low` and `annual_value_high`, and the one-time values of lines 95-96 are never displayed. This is a presentation matter. The model computes all four dollar values as lines 95-99 define them.
- IEEE-754 double rounding, because every figure is an exact real. For areas of ordinary size the program's doubles only approximate the model's figures, so linearity in the area, the cross identity and the exact default figures hold in the model only up to rounding.
- Double overflow for huge areas. The area widget has no maximum (lines 17-23). CO2 is at most about 400.7 t per acre, so `co2_avoided_t` (line 83) stays finite below about 4.5e305 acres. Above that it can overflow to infinity, at 90 % mortality and 300 t C/ha. At an SCC of 500, the one-time dollar values can overflow from about 9e302 acres and the annual ones from about 9e304 acres. An SCC of 0 then gives infinity × 0 = NaN at lines 95-99. In that range the program breaks `LinearInArea` and the non-negativity in `PositiveOnDomain`, rather than approximating them; the model's exact reals have no such limit.
