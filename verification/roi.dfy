/** The ROI calculation: two inputs (purchase price, annual rent yield in
    percent) and the four metrics derived from them. The arithmetic is over
    exact reals. */
module Roi {

  /** What the two sidebar sliders deliver: a whole-dollar purchase price
      and an annual rent yield in percent. */
  datatype Inputs = Inputs(purchasePrice: int, rentPct: real)

  /** The derived metrics, recomputed on every change of the inputs. */
  datatype Metrics = Metrics(
    annualRent: real,
    quarterlyRent: real,
    annualRoiPct: real,
    quarterlyRoiPct: real
  )

  // Slider configuration of the purchase-price input.
  const PriceMin: int := 0
  const PriceMax: int := 1_000_000
  const PriceDefault: int := 200_000
  const PriceStep: nat := 1_000

  // Slider configuration of the rent-yield input.
  const RentPctMin: real := 0.0
  const RentPctMax: real := 100.0
  const RentPctDefault: real := 6.0
  const RentPctStep: real := 0.1

  /** The inputs lie within the ranges the sliders allow. */
  predicate InSliderRange(inp: Inputs) {
    && PriceMin <= inp.purchasePrice <= PriceMax
    && RentPctMin <= inp.rentPct <= RentPctMax
  }

  /** The inputs the sliders produce when the price knob is `priceSteps`
      steps and the yield knob `rentSteps` steps above their minimum. */
  function FromSliderSteps(priceSteps: nat, rentSteps: nat): (inp: Inputs)
    requires priceSteps * PriceStep <= PriceMax
    requires rentSteps <= 1000
    ensures InSliderRange(inp)
    ensures inp.purchasePrice == priceSteps * PriceStep
    ensures inp.purchasePrice % PriceStep == 0
    ensures inp.rentPct * 10.0 == rentSteps as real
  {
    Inputs(PriceMin + priceSteps * PriceStep, RentPctMin + rentSteps as real * RentPctStep)
  }

  /** Every input inside the slider ranges that lies on the slider grid (a
      price in whole thousands, a yield in whole tenths of a percent) is
      produced by some pair of knob positions. */
  lemma SliderGridComplete(inp: Inputs)
    requires InSliderRange(inp)
    requires inp.purchasePrice % PriceStep == 0
    requires (inp.rentPct * 10.0).Floor as real == inp.rentPct * 10.0
    ensures (inp.rentPct * 10.0).Floor >= 0
    ensures FromSliderSteps(inp.purchasePrice / PriceStep, (inp.rentPct * 10.0).Floor) == inp
  {
    var tenths := (inp.rentPct * 10.0).Floor;
    assert tenths as real <= 1000.0;
    assert inp.rentPct == tenths as real * RentPctStep;
  }

  /** The calculation block: the yield converted from percent to a fraction
      gives the annual rent, a quarter of it the quarterly rent; the annual
      ROI is the yield itself and the quarterly ROI a quarter of it. Nothing
      divides by the purchase price, so every input is accepted. */
  function Compute(inp: Inputs): (m: Metrics)
    ensures m.annualRent * 100.0 == inp.purchasePrice as real * inp.rentPct
    ensures m.quarterlyRent * 4.0 == m.annualRent
    ensures m.annualRoiPct == inp.rentPct
    ensures m.quarterlyRoiPct * 4.0 == m.annualRoiPct
    ensures inp.purchasePrice == 0 ==> m.annualRent == 0.0 && m.quarterlyRent == 0.0
  {
    var rentDecimal := inp.rentPct / 100.0;
    var annualRent := inp.purchasePrice as real * rentDecimal;
    var quarterlyRent := annualRent / 4.0;
    var annualRoiPct := inp.rentPct;
    var quarterlyRoiPct := annualRoiPct / 4.0;
    Metrics(annualRent, quarterlyRent, annualRoiPct, quarterlyRoiPct)
  }

  /** For a positive purchase price the annual ROI, taken as the yield, is
      indeed the annual rent as a percentage of the price, and likewise for
      the quarterly figures. */
  lemma RoiMeasuresRentAgainstPrice(inp: Inputs)
    requires inp.purchasePrice > 0
    ensures var m := Compute(inp);
      && m.annualRoiPct == m.annualRent / inp.purchasePrice as real * 100.0
      && m.quarterlyRoiPct == m.quarterlyRent / inp.purchasePrice as real * 100.0
  {
    var m := Compute(inp);
    var p := inp.purchasePrice as real;
    assert m.annualRent == p * inp.rentPct / 100.0;
    assert m.annualRent / p == inp.rentPct / 100.0;
    assert m.quarterlyRent / p == inp.rentPct / 400.0;
  }

  /** Within the slider ranges the annual rent is never negative and never
      exceeds the purchase price (the yield is at most 100%). */
  lemma RentWithinPrice(inp: Inputs)
    requires InSliderRange(inp)
    ensures var m := Compute(inp);
      && 0.0 <= m.quarterlyRent <= m.annualRent <= inp.purchasePrice as real
      && 0.0 <= m.quarterlyRoiPct <= m.annualRoiPct <= 100.0
  {
    var m := Compute(inp);
    var p, f := inp.purchasePrice as real, inp.rentPct / 100.0;
    ScaleByFraction(p, f, m.annualRent);
  }

  /** A fraction f in [0, 1] of a non-negative amount p lies between 0 and p. */
  lemma ScaleByFraction(p: real, f: real, q: real)
    requires 0.0 <= p && 0.0 <= f <= 1.0 && q == p * f
    ensures 0.0 <= q <= p
  {
    assert p - q == p * (1.0 - f);
  }

  /** On the slider grid the annual rent is always a whole number of dollars:
      the product of the two knob positions. */
  lemma SliderAnnualRentWhole(priceSteps: nat, rentSteps: nat)
    requires priceSteps * PriceStep <= PriceMax
    requires rentSteps <= 1000
    ensures var m := Compute(FromSliderSteps(priceSteps, rentSteps));
      && m.annualRent == (priceSteps * rentSteps) as real
      && m.quarterlyRent * 4.0 == (priceSteps * rentSteps) as real
  {
    var inp := FromSliderSteps(priceSteps, rentSteps);
    var p := inp.purchasePrice as real;
    assert p == priceSteps as real * 1000.0;
    assert inp.rentPct == rentSteps as real / 10.0;
    calc {
      Compute(inp).annualRent;
      p * (inp.rentPct / 100.0);
      (priceSteps as real * 1000.0) * (rentSteps as real / 1000.0);
      priceSteps as real * rentSteps as real;
      (priceSteps * rentSteps) as real;
    }
  }
}
