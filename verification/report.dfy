/** The report model: the two data shapes the page builds from the metrics,
    a four-row quarterly rent table and the two-slice capital/return
    breakdown behind the pie chart. No value is changed on the way: the
    shapes only rearrange the metrics. */
module Report {
  import opened Wrappers
  import opened Roi
  import Currency

  /** One row of the quarterly rent table. */
  datatype QuarterRow = QuarterRow(quarter: string, rent: real)

  /** One category of the capital/return breakdown. */
  datatype Slice = Slice(category: string, value: real)

  /** Everything the page renders, for one set of inputs. */
  datatype ReportModel = ReportModel(
    inputs: Inputs,
    metrics: Metrics,
    quarters: seq<QuarterRow>,
    breakdown: seq<Slice>
  )

  const QuarterLabels: seq<string> := ["Q1", "Q2", "Q3", "Q4"]
  const CapitalCategory: string := "Capital (Purchase Price)"
  const ReturnCategory: string := "Annual Rent (Return)"

  lemma QuarterLabelsNumbered()
    ensures |QuarterLabels| == 4
    ensures forall i :: 0 <= i < 4 ==> QuarterLabels[i] == "Q" + Currency.Decimal(i + 1)
  {
    assert Currency.Decimal(1) == "1";
    assert Currency.Decimal(2) == "2";
    assert Currency.Decimal(3) == "3";
    assert Currency.Decimal(4) == "4";
  }

  /** The quarterly table: quarters "Q1" to "Q4" in order, each collecting
      the same quarterly rent (the year's rent is spread evenly). */
  function QuarterlyBreakdown(m: Metrics): (rows: seq<QuarterRow>)
    ensures |rows| == 4
    ensures forall i :: 0 <= i < |rows| ==> rows[i].quarter == "Q" + Currency.Decimal(i + 1)
    ensures forall i :: 0 <= i < |rows| ==> rows[i].rent == m.quarterlyRent
  {
    QuarterLabelsNumbered();
    seq(4, i requires 0 <= i < 4 => QuarterRow(QuarterLabels[i], m.quarterlyRent))
  }

  /** The rent collected over all rows of a table. */
  function TotalRent(rows: seq<QuarterRow>): real {
    if |rows| == 0 then 0.0 else rows[0].rent + TotalRent(rows[1..])
  }

  /** A table whose rows all carry the same rent v totals v times its length. */
  lemma {:induction false} TotalRentUniform(rows: seq<QuarterRow>, v: real)
    requires forall i :: 0 <= i < |rows| ==> rows[i].rent == v
    ensures TotalRent(rows) == |rows| as real * v
    decreases |rows|
  {
    if |rows| > 0 {
      TotalRentUniform(rows[1..], v);
    }
  }

  /** The four quarters of the table add up to exactly the annual rent. */
  lemma QuartersSumToAnnualRent(inp: Inputs)
    ensures TotalRent(QuarterlyBreakdown(Compute(inp))) == Compute(inp).annualRent
  {
    var m := Compute(inp);
    TotalRentUniform(QuarterlyBreakdown(m), m.quarterlyRent);
  }

  /** The value recorded for a category: the first slice that carries it. */
  function Lookup(slices: seq<Slice>, category: string): (r: Option<real>)
    ensures r.None? <==> forall i :: 0 <= i < |slices| ==> slices[i].category != category
    ensures r.Some? ==> exists i :: 0 <= i < |slices| && slices[i] == Slice(category, r.value)
  {
    if |slices| == 0 then None
    else if slices[0].category == category then Some(slices[0].value)
    else Lookup(slices[1..], category)
  }

  /** The pie chart's data: the capital first, then the annual return, each
      under its own category, so the breakdown is a mapping from category
      to amount. */
  function CapitalReturnBreakdown(purchasePrice: int, m: Metrics): (slices: seq<Slice>)
    ensures |slices| == 2
    ensures slices[0].category == CapitalCategory && slices[1].category == ReturnCategory
    ensures slices[0].category != slices[1].category
    ensures Lookup(slices, CapitalCategory) == Some(purchasePrice as real)
    ensures Lookup(slices, ReturnCategory) == Some(m.annualRent)
  {
    [Slice(CapitalCategory, purchasePrice as real), Slice(ReturnCategory, m.annualRent)]
  }

  /** The whole report for one set of inputs: the computed metrics, the
      quarterly table and the breakdown built from them. The quarterly table
      totals the return slice of the breakdown, which is price × yield / 100,
      and the capital slice is the price. */
  function BuildReport(inp: Inputs): (r: ReportModel)
    ensures r.inputs == inp
    ensures r.metrics.annualRoiPct == inp.rentPct
    ensures |r.quarters| == 4 && |r.breakdown| == 2
    ensures Lookup(r.breakdown, ReturnCategory) == Some(TotalRent(r.quarters))
    ensures Lookup(r.breakdown, CapitalCategory) == Some(inp.purchasePrice as real)
    ensures r.metrics == Compute(inp)
    ensures r.quarters == QuarterlyBreakdown(r.metrics)
    ensures r.breakdown == CapitalReturnBreakdown(inp.purchasePrice, r.metrics)
    ensures Lookup(r.breakdown, ReturnCategory).value * 100.0 == inp.purchasePrice as real * inp.rentPct
  {
    var m := Compute(inp);
    QuartersSumToAnnualRent(inp);
    ReportModel(inp, m, QuarterlyBreakdown(m), CapitalReturnBreakdown(inp.purchasePrice, m))
  }

  /** Within the slider ranges every amount of the report is non-negative
      and the return slice never outweighs the capital slice. */
  lemma ReportWithinSliders(inp: Inputs)
    requires InSliderRange(inp)
    ensures var r := BuildReport(inp);
      && (forall i :: 0 <= i < |r.quarters| ==> 0.0 <= r.quarters[i].rent)
      && (forall i :: 0 <= i < |r.breakdown| ==> 0.0 <= r.breakdown[i].value)
      && r.breakdown[1].value <= r.breakdown[0].value
  {
    RentWithinPrice(inp);
  }

  /** A zero purchase price needs no special case: every amount of the
      report is zero. */
  lemma ZeroPriceReport(inp: Inputs)
    requires inp.purchasePrice == 0
    ensures var r := BuildReport(inp);
      && (forall i :: 0 <= i < |r.quarters| ==> r.quarters[i].rent == 0.0)
      && (forall i :: 0 <= i < |r.breakdown| ==> r.breakdown[i].value == 0.0)
  {
  }
}
