# TaxWise front end: spending consolidation, PDF pagination, recommendation lists

This project models the three pieces of decision logic in the TaxWise
dashboard's `script.js`. Everything else in the front end is DOM wiring,
an HTTP upload and calls into Chart.js, html2canvas and jsPDF.

- **Spending-category consolidation** (`renderSpendingChart`). Before the
  spending doughnut chart is drawn, the category → amount breakdown is
  reduced as follows:
  - Every category whose lower-cased label contains `income` is dropped.
  - Every other category whose share of the total is below 3% has its
    amount added to an `Other` accumulator.
  - The remaining categories are charted unchanged, in input order.
  - A positive accumulator is then added under `Other`. It creates a new
    entry after the survivors, or raises a surviving `Other` in place.

  Module `SpendingChart`, with the label test in module `Labels`. The loop
  is the method `ConsolidateSpending`. It is proved equal to the function
  `Consolidated`, and the chart's properties are lemmas about
  `Consolidated`.
- **PDF pagination** (`downloadPDF`). The report image is drawn once per
  A4 page, and each page shifts the image up by one more page height until
  no image height is left. Module `PdfPagination`. The method
  `PagePositions` returns the vertical offsets at which the image is drawn,
  one per page.
- **Recommendation lists** on the Tax Optimizer page, the CIBIL Advisor
  page and the PDF report. Each list has one `<li>` item per
  recommendation, or a single fallback item when the list is missing or
  empty. Module `Recommendations`, with `Option` in module `Optional`.

The breakdown is a JavaScript object. It is modelled as a sequence of
`Entry(category, amount)` in the object's iteration order, with unique keys:
- `Lookup` is `d[key]`.
- `Put` is `d[key] = value`: an existing key keeps its position, and a new
  key is appended.

Amounts and heights are exact reals. The test `amount / totalSpending < 0.03`
is modelled for every sign of the total:
- A zero total gives -Infinity for a negative amount, which is below the
  threshold.
- A zero total gives NaN or +Infinity for any other amount, which is not
  below it.

The total is the sum of all input amounts, income included
(script.js:273). `SpendingChart.IncomeRaisesTheBar` gives an input where a
total without income would decide differently. `SpendingChart.ConsolidatedOther`
states what happens to a surviving `Other`.

## Model

| member | source | states |
|---|---|---|
| SpendingChart.ConsolidateSpending | script.js:273-291 | The loop and the step after it compute exactly `Consolidated(spending)`. Its invariants say that after each entry the object built so far holds the survivors of the prefix, and `otherTotal` holds the prefix's pooled amount. |
| SpendingChart.PutSemantics | script.js:285 | Assigning `d[key] = value` on an object with unique keys does four things. The key then looks up `value`. Every other key looks up what it did before. An existing key keeps its position and a new one is appended. Keys stay unique. |
| SpendingChart.BelowShareIsRatio | script.js:274-282 | For any non-zero total, the modelled test is exactly `amount / total < 0.03`. |
| SpendingChart.ConsolidatedHasNoIncome | script.js:280 | No charted label contains "income" in any letter case, including the `Other` bucket. |
| Labels.IncomeAnyCase | script.js:280 | A label containing any letter-case variant of "income" is treated as income and dropped. |
| Labels.OtherIsNotIncome | script.js:280-290 | The `Other` label is not itself an income label. |
| Labels.ToLowerPointwise | script.js:280 | Lower-casing keeps the label's length and maps each ASCII capital to its small letter, leaving every other character alone. |
| Labels.ContainsIffOccurs | script.js:280 | `includes` holds exactly when the marker occurs at some position of the lower-cased label. |
| SpendingChart.ConsolidatedEntries | script.js:278-286 | Apart from `Other`, an entry is charted exactly when it is an input entry that is not income and whose amount is not below 3% of the total of all input amounts, income included. Its amount is unchanged. |
| SpendingChart.KeptInOrder | script.js:278-286 | The input positions of the survivors are strictly increasing. They hold exactly the positions whose entry survives, and each maps to the survivor at the same rank. |
| SpendingChart.ConsolidatedOrder | script.js:278-294 | Two surviving categories appear in the chart labels in their input order. |
| SpendingChart.ConsolidatedShape | script.js:288-291 | There are three cases. If the pooled amount is not positive, the result is the survivors alone. If it is positive and no `Other` survived, it is the survivors followed by a new `Other` entry holding it. Otherwise it is the survivors with it added to the surviving `Other`. In every case the chart labels are unique, as the keys of a JavaScript object are. |
| SpendingChart.LookupKept | script.js:278-286 | Among the survivors, a key looks up its input amount if that entry survived, and is missing otherwise. |
| SpendingChart.ConsolidatedOther | script.js:288-291 | `Other` looks up its surviving amount (or 0) plus the pooled amount when that is positive, and otherwise only its surviving input amount, if any. |
| SpendingChart.ConsolidatedSum | script.js:282-291 | For non-negative amounts, the charted amounts add up to the sum of the non-income input amounts. |
| SpendingChart.ConsolidatedSize | script.js:289-291 | There are at most as many slices as non-income categories, plus one. |
| SpendingChart.ZeroTotalPassesThrough | script.js:273-282 | With non-negative amounts summing to zero, nothing is pooled and every non-income entry is charted unchanged, in order. |
| SpendingChart.NothingToConsolidate | script.js:278-291 | An input with no income label and no category below the threshold is charted as it is. |
| SpendingChart.ConsolidateIdempotent | script.js:273-291 | For non-negative amounts with unique keys, consolidating an already consolidated breakdown changes nothing. |
| SpendingChart.SmallCategoryPooled | script.js:273-291 | Take amounts 1000, 900, 20 and 5000, where only the last label is income and neither of the first two is `Other`. The result is the first two entries unchanged, followed by Other 20. |
| SpendingChart.IncomeRaisesTheBar | script.js:273-283 | Take amounts 1000, 100 and 5000, where only the last label is income and the first is not `Other`. The 100 is at least 3% of the non-income total. It is still pooled into Other, because the threshold is measured against the total including income. |
| PdfPagination.PagePositions | script.js:392-405 | The loop draws one image per page, `PageCount` pages in all. Page k (0-based) draws the image at offset `-k * pdfHeight`. |
| PdfPagination.PageCountIsLeast | script.js:392-405 | The page count is at least one. Its pages cover the image height, and one page fewer would not. |
| PdfPagination.EveryBandDrawn | script.js:392-405 | Every height of the image lies in the band shown by one of the drawn pages. |
| Recommendations.ItemsOf | script.js:183 | There is one `<li>` item per recommendation, in order. |
| Recommendations.ItemsRoundTrip | script.js:183 | The joined items parse back to exactly the recommendation texts, when the texts hold no tag. |
| Recommendations.RenderedItems | script.js:182-184 | The rendered list parses back to the recommendations when there are any, and to the fallback text alone when the list is missing or empty. |
| Recommendations.NeverEmpty | script.js:182-184 | The rendered list is never empty: it always starts with an `<li>` item. |
| Recommendations.TaxListRendered | script.js:438-440 | The tax list reads back as the tax recommendations, or as the single tax fallback message. The Tax Optimizer page builds the same list at script.js:182-184. |
| Recommendations.CibilListRendered | script.js:442-444 | The CIBIL list reads back as the CIBIL recommendations, or as the single CIBIL fallback message. The CIBIL Advisor page builds the same list at script.js:226-228. |

## Left out

- DOM wiring, Chart.js, html2canvas, jsPDF, `formatCurrency` (`Intl.NumberFormat`) and the `fetch` upload are calls into code outside this model. The tax and credit-score computations happen in an external backend.
- The chart colours, the chart itself and the `innerHTML` templates around the lists are presentation only.
- `PdfPagination.PagePositions` abstracts the jsPDF document to the list of drawing offsets. `addPage` is appending to that list. `imgHeight` is taken as given, since it comes from the rendered canvas.
- The global `analysisData` and `spendingChart` state and the 500 ms `setTimeout` wait are left out: they are sequencing, not logic.
- Floating point: amounts, the `0.03` literal and the image heights are exact reals, so rounding is not reproduced.
- JavaScript moves integer-like object keys ahead of other keys, and `toLowerCase` lower-cases non-ASCII letters. Neither is modelled: labels are ASCII and keys keep insertion order.
- `SpendingChart.ConsolidateSpending` requires unique keys, because a JavaScript object cannot hold a key twice.
- `SpendingChart.ConsolidatedSum` assumes non-negative amounts, because a pool that ends up at zero or below is dropped by the `otherTotal > 0` test.
- `SpendingChart.ZeroTotalPassesThrough` assumes non-negative amounts, because at a zero total a negative amount is below the share (-Infinity < 0.03) and is pooled.
- `SpendingChart.ConsolidateIdempotent` assumes non-negative amounts, because a second pass measures shares against a different total, which only stays no larger than the first when no amount is negative.
- `Recommendations.RenderedItems`, `Recommendations.ItemsRoundTrip`, `Recommendations.TaxListRendered` and `Recommendations.CibilListRendered` state the read-back only for recommendation texts without `<`. A text holding markup is inserted as HTML and cannot be separated from the item tags.
- The transaction sign and date fallback (script.js:153-156) is table formatting, not part of this model.
- `frontend/script.js` is an earlier copy of the same page without consolidation or multi-page PDF output, and is not part of this model.
