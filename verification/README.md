# Real Estate ROI Calculator — verified model

The calculator page takes two inputs from sidebar sliders:

- a purchase price in whole dollars, from 0 to 1,000,000 in steps of 1,000;
- an annual rent yield in percent, from 0 to 100 in steps of 0.1.

From these it computes four metrics:

- the annual rent;
- the quarterly rent;
- the annual ROI in percent;
- the quarterly ROI in percent.

It then builds a four-row quarterly rent table (Q1 to Q4) and a two-category breakdown of capital against annual return for a pie chart. It shows currency amounts through the `"${:,.0f}"` format: a dollar sign, then the digits with a comma every three digits from the right.

This project models that logic in Dafny. It has five modules:

- `Roi` (`roi.dfy`): the inputs, the slider ranges and grid, and the calculation.
- `Report` (`report.dfy`): the quarterly table and the capital/return breakdown.
- `Currency` (`currency.dfy`): plain decimal rendering, the thousands-separated currency string, and a reader that undoes it.
- `Display` (`display.dfy`): which currency strings the page shows for a report.
- `Wrappers` (`wrappers.dfy`): the `Option` type.

All arithmetic uses exact reals. `quarterly_rent × 4 == annual_rent` holds exactly here. It also holds exactly in the source's double arithmetic, because dividing a double by 4 only changes its exponent. In the source only `rent_pct / 100.0` and the product with the price round.

The calculation `Roi.Compute` has no precondition. The source never divides by the purchase price, so it accepts every input. The slider bounds are preconditions only of the lemmas that need them. The slider grid is modelled as two knob positions, `priceSteps` and `rentSteps`. On that grid the annual rent is always exactly `priceSteps × rentSteps` dollars, so it always has a currency string. The quarterly rent has one exactly when that product is a multiple of four.

## Model

| member | source | states |
|---|---|---|
| Roi.Compute | streamlit_app.py:36-42 | annual rent × 100 = price × yield; quarterly rent × 4 = annual rent; annual ROI % is the yield itself; quarterly ROI % × 4 = annual ROI %; a zero price gives zero annual and quarterly rent, for every input (no division by the price) |
| Roi.RoiMeasuresRentAgainstPrice | streamlit_app.py:41-42 | for a positive price the annual ROI % equals annual rent / price × 100, as the comment on the identity claims, and the quarterly ROI % equals quarterly rent / price × 100 |
| Roi.RentWithinPrice | streamlit_app.py:13-38 | within the slider ranges: 0 ≤ quarterly rent ≤ annual rent ≤ purchase price, and 0 ≤ quarterly ROI % ≤ annual ROI % ≤ 100 |
| Roi.FromSliderSteps | streamlit_app.py:13-30 | every slider position yields inputs inside both ranges: the price is 1,000 × the price knob position and the yield is a whole number of tenths of a percent |
| Roi.SliderGridComplete | streamlit_app.py:13-30 | conversely, every in-range input with a price in whole thousands and a yield in whole tenths of a percent comes from some knob positions |
| Roi.SliderAnnualRentWhole | streamlit_app.py:13-38 | on the slider grid the annual rent is exactly the whole number priceSteps × rentSteps, and four quarterly rents make that number |
| Report.QuarterlyBreakdown | streamlit_app.py:45-50 | exactly four rows labelled "Q" followed by the quarter number 1 to 4, in order, each with the quarterly rent |
| Report.QuartersSumToAnnualRent | streamlit_app.py:38-50 | the four quarterly table rows add up to exactly the annual rent |
| Report.CapitalReturnBreakdown | streamlit_app.py:53-56 | exactly two slices, capital first and return second, under distinct categories, so looking up "Capital (Purchase Price)" gives the price and "Annual Rent (Return)" gives the annual rent |
| Report.BuildReport | streamlit_app.py:36-56 | the report holds the computed metrics, the quarterly table and the breakdown built from them; the return slice equals the total of the quarterly table and equals price × yield / 100; the capital slice equals the price |
| Report.ReportWithinSliders | streamlit_app.py:13-56 | within the slider ranges every table and breakdown amount is non-negative, and the return slice never exceeds the capital slice |
| Report.ZeroPriceReport | streamlit_app.py:36-56 | a zero purchase price gives zero in every quarterly row and in both breakdown slices |
| Currency.Decimal | streamlit_app.py:61 | the digits of an amount form a canonical numeral: only digits, at least one, no leading zero except for the amount 0 |
| Currency.DecimalRoundTrip | streamlit_app.py:61 | reading back the decimal digits of n gives n |
| Currency.NumeralRoundTrip | streamlit_app.py:61 | every canonical numeral is the decimal rendering of its own value (the converse round trip) |
| Currency.GroupStripsToDecimal | streamlit_app.py:66 | removing the commas from the grouped digits gives the plain decimal digits |
| Currency.GroupShape | streamlit_app.py:74 | the grouped digits have a comma at every fourth position from the right end and a digit everywhere else, so every comma is followed by exactly three digits and the leading group has one to three |
| Currency.FormatUsdSound | streamlit_app.py:61 | the currency string starts with "$"; the rest has the thousands shape; removing "$" and the commas gives the plain decimal digits; the reader gives back the amount |
| Currency.FormatUsdInjective | streamlit_app.py:74 | two different amounts never render to the same currency string |
| Display.FormatAmount | streamlit_app.py:61-66 | an amount has a currency string exactly when it is whole and non-negative, and reading that string back gives exactly the amount |
| Display.CurrencyDisplay | streamlit_app.py:58-74 | the price, annual-rent and quarterly-rent metric cells are the currency strings of those amounts; the table's rent column has one cell per quarterly row, each the currency string of that row's rent |
| Display.QuarterWholeIff | streamlit_app.py:38 | a quarter of a whole amount is itself whole exactly when the amount is a multiple of four |
| Display.SliderCurrencyDisplay | streamlit_app.py:61-74 | on the slider grid the price and the annual rent always render, as the strings of 1,000 × priceSteps and priceSteps × rentSteps; the quarterly rent renders exactly when that product is a multiple of four; every table cell shows the quarterly rent metric's string |
| Display.DefaultSliderReport | streamlit_app.py:13-66 | at the initial slider positions ($200,000 at 6%) the metrics are 12,000 / 3,000 / 6% / 1.5%, shown as "$200,000", "$12,000" and "$3,000" |

## Left out

- Streamlit page calls: page configuration, title, sidebar widgets, metric cards, table and markdown. They only display values. The slider bounds, steps and defaults are kept as constants and preconditions.
- The Altair bar and pie charts (streamlit_app.py:80-111). They are declarative rendering through a charting library, and the model has no access to its behaviour. The chart data are modelled in `Report`.
- pandas DataFrame construction and styling. The two frames are modelled as sequences of rows.
- IEEE double arithmetic. In the source `rent_pct / 100.0` and its product with the price round to the nearest double. The model uses exact reals, so on the slider grid it gives annual rents that are exact whole numbers. The divisions by 4 are exact in both.
- The percentage strings `"{:.2f}%"` (streamlit_app.py:63, 67, 68). They need decimal rounding of reals, which is not modelled.
- Display.FormatAmount: returns no string for a fractional or negative amount. In the source, `.0f` rounds half to even and a negative amount gets a minus sign. Rounding is not modelled, so only whole non-negative amounts are rendered.
- Display.CurrencyDisplay: for a fractional quarterly rent, the metric and table cells hold no string, for the same reason.
- Currency.FormatUsd: matches Python only for amounts up to 2^53, where an integer still converts exactly to a double. The sliders stay far below that (at most 1,000,000).
- The PDF report generator, its themes, and chart image export. None of it is part of the source file, so it is not part of this model.
