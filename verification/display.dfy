/** The currency strings the page shows: the purchase price and the annual
    and quarterly rent in the summary metrics, and the rent column of the
    quarterly table, all through `"${:,.0f}"`. Only whole non-negative
    amounts are rendered; a fractional amount has no rendering here. */
module Display {
  import opened Wrappers
  import opened Roi
  import opened Report
  import Currency

  /** A non-negative amount with no fractional part. */
  predicate IsWholeAmount(x: real) {
    x >= 0.0 && x.Floor as real == x
  }

  /** The currency string of an amount, when it is whole and non-negative. */
  function FormatAmount(x: real): (r: Option<string>)
    ensures r.Some? <==> IsWholeAmount(x)
    ensures r.Some? ==>
      var back := Currency.ParseUsd(r.value);
      back.Some? && back.value as real == x
  {
    if IsWholeAmount(x) then
      Currency.FormatUsdSound(x.Floor);
      Some(Currency.FormatUsd(x.Floor))
    else None
  }

  /** Every currency string the page shows for one report. */
  datatype CurrencyCells = CurrencyCells(
    purchasePrice: Option<string>,
    annualRent: Option<string>,
    quarterlyRent: Option<string>,
    rentColumn: seq<Option<string>>
  )

  /** The summary metrics' currency strings and the table's rent column. */
  function CurrencyDisplay(r: ReportModel): (c: CurrencyCells)
    ensures c.purchasePrice == FormatAmount(r.inputs.purchasePrice as real)
    ensures c.annualRent == FormatAmount(r.metrics.annualRent)
    ensures c.quarterlyRent == FormatAmount(r.metrics.quarterlyRent)
    ensures |c.rentColumn| == |r.quarters|
    ensures forall i :: 0 <= i < |c.rentColumn| ==> c.rentColumn[i] == FormatAmount(r.quarters[i].rent)
  {
    CurrencyCells(
      FormatAmount(r.inputs.purchasePrice as real),
      FormatAmount(r.metrics.annualRent),
      FormatAmount(r.metrics.quarterlyRent),
      seq(|r.quarters|, i requires 0 <= i < |r.quarters| => FormatAmount(r.quarters[i].rent))
    )
  }

  /** A whole amount is rendered from its integer value. */
  lemma FormatWholeAmount(n: nat)
    ensures FormatAmount(n as real) == Some(Currency.FormatUsd(n))
  {
    assert (n as real).Floor == n;
  }

  /** A quarter of a whole amount is whole exactly when the amount is a
      multiple of four. */
  lemma QuarterWholeIff(total: nat, q: real)
    requires q * 4.0 == total as real
    ensures IsWholeAmount(q) <==> total % 4 == 0
  {
    if total % 4 == 0 {
      assert q == (total / 4) as real;
      assert q.Floor == total / 4;
    }
  }

  /** The currency cells of a report whose price and annual rent are whole
      and whose table rows all carry the quarterly rent. */
  lemma WholeReportCells(r: ReportModel, price: nat, annual: nat)
    requires r.inputs.purchasePrice == price
    requires r.metrics.annualRent == annual as real
    requires r.metrics.quarterlyRent * 4.0 == annual as real
    requires forall i :: 0 <= i < |r.quarters| ==> r.quarters[i].rent == r.metrics.quarterlyRent
    ensures var c := CurrencyDisplay(r);
      && c.purchasePrice == Some(Currency.FormatUsd(price))
      && c.annualRent == Some(Currency.FormatUsd(annual))
      && (c.quarterlyRent.Some? <==> annual % 4 == 0)
      && (forall i :: 0 <= i < |c.rentColumn| ==> c.rentColumn[i] == c.quarterlyRent)
  {
    FormatWholeAmount(price);
    FormatWholeAmount(annual);
    QuarterWholeIff(annual, r.metrics.quarterlyRent);
  }

  /** On the slider grid the price and the annual rent always have a
      currency string (the annual rent is the product of the two knob
      positions), the quarterly rent has one exactly when that product is a
      multiple of four, and every cell of the table's rent column shows the
      same string as the quarterly rent metric. */
  lemma SliderCurrencyDisplay(priceSteps: nat, rentSteps: nat)
    requires priceSteps * PriceStep <= PriceMax
    requires rentSteps <= 1000
    ensures var c := CurrencyDisplay(BuildReport(FromSliderSteps(priceSteps, rentSteps)));
      && c.purchasePrice == Some(Currency.FormatUsd(priceSteps * PriceStep))
      && c.annualRent == Some(Currency.FormatUsd(priceSteps * rentSteps))
      && (c.quarterlyRent.Some? <==> (priceSteps * rentSteps) % 4 == 0)
      && (forall i :: 0 <= i < |c.rentColumn| ==> c.rentColumn[i] == c.quarterlyRent)
  {
    var r := BuildReport(FromSliderSteps(priceSteps, rentSteps));
    SliderAnnualRentWhole(priceSteps, rentSteps);
    WholeReportCells(r, priceSteps * PriceStep, priceSteps * rentSteps);
  }

  /** With the sliders at their initial positions (a $200,000 property at a
      6% yield) the page shows $200,000 of capital, $12,000 of annual rent,
      $3,000 per quarter, a 6% annual and a 1.5% quarterly ROI. */
  lemma DefaultSliderReport()
    ensures var r := BuildReport(Inputs(PriceDefault, RentPctDefault));
      var c := CurrencyDisplay(r);
      && r.metrics == Metrics(12000.0, 3000.0, 6.0, 1.5)
      && c.purchasePrice == Some("$200,000")
      && c.annualRent == Some("$12,000")
      && c.quarterlyRent == Some("$3,000")
  {
    var r := BuildReport(Inputs(PriceDefault, RentPctDefault));
    assert r.metrics.annualRent == 12000.0;
    CurrencyExamples();
  }

  lemma CurrencyExamples()
    ensures Currency.FormatUsd(200000) == "$200,000"
    ensures Currency.FormatUsd(12000) == "$12,000"
    ensures Currency.FormatUsd(3000) == "$3,000"
  {
    ThousandsExample(200, "200");
    ThousandsExample(12, "12");
    ThousandsExample(3, "3");
  }

  /** A number of thousands below a thousand renders as its digits and ",000". */
  lemma ThousandsExample(k: nat, digits: string)
    requires 1 <= k < 1000 && digits == Currency.Decimal(k)
    ensures Currency.FormatUsd(k * 1000) == "$" + digits + ",000"
  {
    var pad := Currency.Pad(0, 3);
    assert pad == "000" by {
      assert Currency.Pad(0, 1) == "0";
      assert Currency.Pad(0, 2) == "00";
    }
    Currency.GroupUnfold(k * 1000);
    assert Currency.Group(k * 1000) == digits + "," + pad;
  }
}
