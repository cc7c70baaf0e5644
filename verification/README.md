# Olist dashboards: complaint classifier and fulfillment metrics

This project is a Dafny model of the decision logic inside four Streamlit
dashboards for the Olist e-commerce data set:

- the keyword classifier `categorize_complaint`, which labels a negative
  review's comment. It appears twice, with two keyword tables and two
  fallback labels: "Lainnya" in `dashboard-submit.py` and "Other" in
  `dashboard-prodqual.py`. The model also covers the review pipeline around it:
  the missing-text filter, de-duplication by review id, the score ≤ 2
  filter, labelling and label counts. The pipelines label reviews with the
  keyword tables exactly as the dashboards declare them; each module also
  holds a corrected table, used only to state the findings below;
- the fulfillment lateness metrics of `dashboardtes.py`, `dashboard-prodqual.py`
  and `dashboard.py`:
  - the delivered and complete-record filter;
  - days late, on-time and seller-dispatch flags;
  - on-time and dispatch rates, and mean lateness of the late orders;
  - monthly and per-state rates;
  - the half-open 5-day lateness histograms;
  - the top-5 late categories;
  - the late percentage per review score;
- the small customer and lead rules of `dashboard.py`:
  - whole-day delivery time;
  - the MQL funnel per lead origin;
  - Repeat/New customer labelling and its ratio;
- `format_snake_case`.

A data frame is a sequence of records. A missing value (NaN, NaT, `None`) is
`Option.None`. A timestamp is a whole number of seconds. A day count is a
`real`, which makes `total_seconds() / (24 * 3600)` exact. Where the source
adds columns in place, a frame is a class with one `seq` field per column:
`NegativeReviews.LowScoreFrame`, `ProductQuality.AnalysisFrame`,
`Fulfillment.AnalysisFrame` and `DeliveryKpis.DeliveryFrame`. Their methods
state the new columns and the invariant that each column agrees with its
rows. The reductions are functions on columns, in module `Tally`: counts,
`unique`, `value_counts`, percentages, means, group-by and `nlargest`.

Modules: `Optional`, `Text`, `Tally`, `Durations`, `Classifier`,
`SubmitComplaints`, `ProdQualComplaints`, `NegativeReviews`, `ProductQuality`,
`Fulfillment`, `DeliveryKpis`.

## Model

| member | source | states |
|---|---|---|
| Text.Lower | dashboard-submit.py:204 | same length; every upper-case letter (A-Z, À-Þ except ×) becomes the letter 32 code points on; every other character is kept |
| Text.LowerIdempotent | dashboard-submit.py:204 | lower-casing twice is lower-casing once |
| Text.Contains | dashboard-submit.py:205 | `keyword in text` holds exactly when the keyword occurs at some position of the text |
| Text.ForeignCharacterExcludes | dashboard-submit.py:205 | a keyword with a character the text lacks is not a substring of it |
| Text.FormatSnakeCase | dashboardtes.py:10-12 | same length, every '_' becomes ' ', each letter stays the same letter up to case, every other character kept, and a letter is upper-case exactly when it starts a word |
| Text.FormatSnakeCaseIdempotent | dashboardtes.py:10-12 | formatting an already formatted name changes nothing |
| Text.FormatSnakeCaseValue | dashboard-prodqual.py:8-12 | a missing value stays missing; a string is formatted as by `FormatSnakeCase`, keeping its length and losing every '_' |
| Classifier.Score | dashboard-submit.py:205 | a category's score is at most the number of its keyword entries |
| Classifier.ScoreCountsMatches | dashboard-submit.py:205 | the score is the number of keyword entries (not occurrences) found in the lower-cased comment |
| Classifier.ScoreZeroIff | dashboard-submit.py:205-207 | a score is 0 exactly when none of the category's entries occurs |
| Classifier.Classify | dashboard-submit.py:205-208 | no winner exactly when nothing matches; otherwise the winner has a positive, maximal score, and every earlier category scores less |
| Classifier.WinnerUnique | dashboard-submit.py:208 | at most one category satisfies the winning condition |
| Classifier.Categorize | dashboard-submit.py:202-209 | a missing comment or one with no match gets the fallback label; otherwise the label is the winning category's name |
| Classifier.WinnerIsChosen | dashboard-submit.py:206-209 | the winning category on the lower-cased comment is the returned label |
| Classifier.LabelIsDeclaredOrFallback | dashboard-submit.py:202-209 | the label is always a declared category name or the fallback label |
| Classifier.CategorizeIgnoresCase | dashboard-prodqual.py:146-147 | a comment and its lower-cased form get the same label |
| Classifier.TieGoesToFirstDeclared | dashboard-prodqual.py:148-150 | of two categories tied at the highest positive score, the later one is never chosen |
| Classifier.OnlyMatchingCategoryWins | dashboard-submit.py:206-209 | a comment that scores in exactly one category gets that category |
| Classifier.FallbackIffNoMatch | dashboard-prodqual.py:145-149 | with a fallback label that is not a category name, the fallback is returned exactly for a missing comment or one with no match |
| SubmitComplaints.TablesWellFormed | dashboard-submit.py:191-200 | both keyword tables are non-empty and no category name repeats |
| SubmitComplaints.CategorizeComplaintAsWritten | dashboard-submit.py:202-209 | with the table as declared ("quantitade" included): "Lainnya" exactly for a missing comment or one matching no keyword; otherwise the name of the winning category |
| SubmitComplaints.CategorizeComplaint | dashboard-submit.py:202-209 | the same with the entry spelt "quantidade": "Lainnya" exactly for a missing comment or one matching no keyword; otherwise the winning category |
| SubmitComplaints.CaixaTie | dashboard-submit.py:195-197 | "caixa" scores 1 in both "Bad Product Quality / Defective" and "Bad Packaging", and gets the former, declared first, with the table as declared and with the corrected one |
| SubmitComplaints.QuantidadeUnmatchedAsWritten | dashboard-submit.py:194 | with the table as written, a comment reading "quantidade" matches nothing and gets "Lainnya" |
| SubmitComplaints.QuantidadeIsMissingItems | dashboard-submit.py:194 | with the entry spelt "quantidade", the same comment is labelled "Missing Items / Partial Delivery" |
| ProdQualComplaints.TablesWellFormed | dashboard-prodqual.py:109-142 | both keyword tables are non-empty and no category name repeats |
| ProdQualComplaints.CategorizeComplaintAsWritten | dashboard-prodqual.py:144-151 | with the table as declared ("cor" included): "Other" exactly for a missing comment or one matching no keyword; otherwise the name of the winning category |
| ProdQualComplaints.CategorizeComplaint | dashboard-prodqual.py:144-151 | the same with the entry "cor ": "Other" exactly for a missing comment or one matching no keyword; otherwise the winning category |
| ProdQualComplaints.CorreioIsWrongItemAsWritten | dashboard-prodqual.py:124 | with the entry "cor" as written, a comment reading "correio" scores 1 as a carrier problem yet is labelled "Wrong Item Sent" |
| ProdQualComplaints.CorreioIsCarrier | dashboard-prodqual.py:139-141 | with the entry "cor " (as in dashboard-submit.py), the same comment is labelled "Problems with Carrier / Shipping" |
| Tally.Filter | dashboard-submit.py:217 | every kept element satisfies the mask and comes from the input; an element that satisfies it is kept as often as it occurs, any other not at all |
| Tally.FilterKeepsDistinctKeys | dashboard-submit.py:217 | a row filter keeps review ids unique |
| Tally.SelectContains | dashboardtes.py:122-123 | a boolean mask selects every row where it holds |
| Tally.Select | dashboardtes.py:73 | `col[keys == k]` has one entry per row holding `k`, each the value of such a row |
| Tally.Positions | dashboardtes.py:145-147 | the positions holding the key, strictly increasing, none missing |
| Tally.SelectAt | dashboardtes.py:145-147 | the selected rows are the rows at the positions holding the key, in order |
| Tally.SelectIsFilter | dashboard-prodqual.py:61-64 | selecting by a key column that holds the key exactly where a predicate holds is filtering by that predicate |
| Tally.SelectionMask | dashboardtes.py:121-123 | the "All …" option keeps every row; otherwise a row is kept exactly when its key equals the selection |
| Tally.CountsPartition | dashboardtes.py:158 | counting each distinct key once covers every row: the counts add up to the length |
| Tally.Unique | dashboardtes.py:118 | `unique()` lists no value twice and exactly the values of the column |
| Tally.ValueCounts | dashboard-submit.py:223 | `value_counts` has one entry per distinct value: no value twice, every value of the column listed, each with its exact (positive) number of occurrences |
| Tally.ValueCountsTotal | dashboard-submit.py:223 | the counts of `value_counts` add up to the number of rows |
| Tally.TwoUniqueIffTwoDifferent | dashboard.py:350 | at least two distinct values exactly when two entries differ |
| Tally.PercentTrue | dashboardtes.py:69 | missing for no rows; otherwise in [0,100] and equal to 100 × true count / row count |
| Tally.PercentComplement | dashboard.py:352 | the shares of true and false add up to 100 |
| Tally.Mean | dashboardtes.py:73 | missing for no values; mean × count = sum; positive when every value is |
| Tally.Present | dashboard.py:219 | `dropna()` drops the missing values and keeps every present value as often as it occurs |
| Tally.KnownKeys | dashboardtes.py:132 | `groupby` drops the rows with a missing key; every present key keeps its count, and the values selected for a key are exactly those of the rows with that key |
| Tally.GroupedPercent | dashboardtes.py:132-135 | one percentage per distinct key, each in [0,100], taken over that key's rows |
| Tally.GroupedKnownPercent | dashboardtes.py:132 | `groupby(keys)[flag].mean() * 100` with missing keys dropped: one row per present key, no key twice, each the percentage of true among that key's rows, in [0,100] |
| Tally.TopK | dashboardtes.py:187 | min(k, n) entries taken from the input, in non-increasing count order, and no entry left out has a larger count than one kept |
| Durations.Days | dashboardtes.py:59 | the day value is positive exactly for a positive delta and zero only for zero |
| Durations.DaysScaleBack | dashboardtes.py:59 | the day value times 86400 gives the seconds back, so nothing is lost |
| Durations.WholeDays | dashboard.py:217 | `.dt.days` is the floor: d × 86400 ≤ seconds < (d + 1) × 86400 |
| NegativeReviews.DropDuplicateIds | dashboard-submit.py:215 | the kept ids are the distinct ids in order of first appearance; every kept row is an input row |
| NegativeReviews.DeduplicatedIdsUnique | dashboard-submit.py:215 | after de-duplication no review id repeats |
| NegativeReviews.KeepsFirstOccurrence | dashboard-submit.py:215 | every kept row is the first row with its id |
| NegativeReviews.KeepsEveryFirstOccurrence | dashboard-submit.py:215 | every row that is the first with its review id is kept |
| NegativeReviews.LowScoreReviews | dashboard-submit.py:212-217 | a review occurs exactly once when it scores 2 or less and is the first row with its id among the rows with comment, translation and id, and otherwise not at all; ids are unique |
| NegativeReviews.ComplaintCategories | dashboard-submit.py:218 | one label per review, the classifier's label with the table as declared; "Lainnya" exactly when nothing matches; every other label is a declared category |
| NegativeReviews.FallbackMeansNoKeyword | dashboard-submit.py:218 | a low-score review is labelled "Lainnya" exactly when it contains no keyword of the table as declared |
| NegativeReviews.LowScoreFrame.constructor | dashboard-submit.py:212-217 | the frame holds the low-score reviews and no label column yet |
| NegativeReviews.LowScoreFrame.AssignComplaintCategories | dashboard-submit.py:218 | the label column is added in place; the rows are unchanged |
| NegativeReviews.LowScoreFrame.CategoryCounts | dashboard-submit.py:223 | one entry per label that occurs, no label twice, each with the exact number of reviews carrying it; the counts add up to the number of low-score reviews |
| ProductQuality.DaysLate | dashboard-prodqual.py:43 | present exactly when both dates are; the value times 86400 is the delay in seconds; positive exactly for a delivery after the estimate, zero exactly at it |
| ProductQuality.IsLate | dashboard-prodqual.py:44 | late exactly when both dates are present and delivery is strictly after the estimate |
| ProductQuality.FormattedCategories | dashboard-prodqual.py:39 | only the category of each row changes: a missing one stays missing, a present one is formatted |
| ProductQuality.AnalysisFrame.constructor | dashboard-prodqual.py:36 | the frame starts as the merged rows, with no derived columns |
| ProductQuality.AnalysisFrame.FormatCategories | dashboard-prodqual.py:39 | the rows become their formatted form in place; the other columns do not change |
| ProductQuality.AnalysisFrame.DropIncomplete | dashboard-prodqual.py:40 | exactly the rows with all five fields remain, in order |
| ProductQuality.AnalysisFrame.AddLateness | dashboard-prodqual.py:43-44 | the `days_late` and `is_late` columns agree with every row |
| ProductQuality.Prepare | dashboard-prodqual.py:39-44 | the rows are the complete ones of the formatted merged table; `days_late` and `is_late` agree with every row, which is late exactly when delivered after the estimate |
| ProductQuality.FilterByCategory | dashboard-prodqual.py:61-64 | every row for "All Categories", otherwise the rows of the selected category, each as often as it occurs, and no other row |
| ProductQuality.LatePercentageByScore | dashboard-prodqual.py:98 | one entry per review score present, no score twice, none missing; each the percentage of rows with `IsLate` among the rows of that score, in [0,100] |
| ProductQuality.LowScoreReviews | dashboard-prodqual.py:154 | the rows scored 2 or less, each as often as it occurs, and no other row |
| ProductQuality.ComplaintLabels | dashboard-prodqual.py:157 | one label per review, the classifier's label with the table as declared; "Other" exactly for a missing comment or one with no match |
| ProductQuality.OtherReviews | dashboard-prodqual.py:176 | the low-score reviews labelled "Other", each as often as it occurs, and no other; none has a keyword of the table as declared |
| ProductQuality.OtherReviewsAsWritten | dashboard-prodqual.py:156-176 | fails (missing column) exactly when there are no low-score reviews; otherwise equals `OtherReviews` |
| ProductQuality.SelectByLabel | dashboard-prodqual.py:176 | selecting the rows labelled "Other" is filtering by the classifier's fallback |
| ProductQuality.NoLowScoreReviewsFails | dashboard-prodqual.py:156-176 | with no low-score reviews the code as written fails, while the intended subset is empty |
| ProductQuality.SampleSize | dashboard-prodqual.py:180 | the sample size is min(30, n) |
| Fulfillment.AnalysisSet | dashboardtes.py:56-58 | the orders with status "delivered" and all seven fields present, each as often as it occurs, and no other |
| Fulfillment.DaysLate | dashboardtes.py:59 | the value times 86400 is the delay in seconds; positive exactly for a late delivery, zero exactly at the estimate |
| Fulfillment.IsOnTime | dashboardtes.py:60 | on time exactly when delivered on or before the estimate |
| Fulfillment.SellerDispatchDaysLate | dashboardtes.py:62 | the value times 86400 is the dispatch delay in seconds; positive exactly when the carrier got the parcel after the shipping limit |
| Fulfillment.SellerDispatchedOnTime | dashboardtes.py:61-62 | dispatched on time exactly when the dispatch delay is not positive |
| Fulfillment.LatenessBin | dashboardtes.py:155-157 | no bin below 0; bin k < n holds [k·w, (k+1)·w); the overflow bin n holds everything from n·w |
| Fulfillment.BinLabel | dashboardtes.py:156 | only the overflow label ends in '+' |
| Fulfillment.OverflowLabels | dashboardtes.py:155-171 | the overflow labels are "60+" and "20+"; the first bin is "0 - 5" |
| Fulfillment.Histogram | dashboardtes.py:158 | one row per bin, including empty bins, each with its label and count |
| Fulfillment.HistogramCoversAll | dashboardtes.py:157-158 | with no negative values, every value lands in one bin: the counts add up to the number of values |
| Fulfillment.SelectionKeepsAgreement | dashboardtes.py:122-123 | selecting rows keeps every derived column in agreement with its rows |
| Fulfillment.AnalysisFrame.constructor | dashboardtes.py:55-58 | the frame holds the analysis set, with no derived columns |
| Fulfillment.AnalysisFrame.AddDeliveryColumns | dashboardtes.py:59-62 | the four delivery columns are added in place and agree with every row |
| Fulfillment.AnalysisFrame.AddMonth | dashboardtes.py:78 | the month column is the purchase month of every row; nothing else changes |
| Fulfillment.AnalysisFrame.Restrict | dashboardtes.py:121-147 | keeps the masked rows and columns, in order, still in agreement |
| Fulfillment.AnalysisFrame.OnTimeRate | dashboardtes.py:69 | missing for no rows; otherwise the on-time percentage, in [0,100] |
| Fulfillment.AnalysisFrame.SellerDispatchRate | dashboardtes.py:71 | missing for no rows; otherwise the dispatch percentage, in [0,100] |
| Fulfillment.AnalysisFrame.AverageDaysLate | dashboardtes.py:73 | the mean over the late rows only; missing exactly when none is late, and positive otherwise |
| Fulfillment.AnalysisFrame.MonthlyPerformance | dashboardtes.py:79-83 | one row per month, both percentages of that month's rows, in [0,100]; every row is in exactly one month |
| Fulfillment.AnalysisFrame.StateRates | dashboardtes.py:132-135 | one rate per state present, no state twice, none missing; each the percentage of that state's rows with the chosen flag, in [0,100]; the groups cover every row with a state |
| Fulfillment.AnalysisFrame.CustomerLatenessHistogram | dashboardtes.py:153-158 | missing exactly when nothing is late; otherwise 13 bins whose counts add up to the late rows |
| Fulfillment.AnalysisFrame.SellerLatenessHistogram | dashboardtes.py:168-173 | missing exactly when nothing is late to dispatch; otherwise 5 bins whose counts add up to those rows |
| Fulfillment.AnalysisFrame.TopLateCategories | dashboardtes.py:186-187 | missing exactly when nothing is late; otherwise min(5, n) categories of late orders, each with its exact number of late orders, in non-increasing order, none counting less than a category left out |
| DeliveryKpis.Delivered | dashboard.py:216 | the orders with a delivery date, each as often as it occurs, and no other |
| DeliveryKpis.DeliveryTime | dashboard.py:217 | the floor of the days between purchase and delivery; missing with the purchase date |
| DeliveryKpis.OnTime | dashboard.py:218 | on time exactly when delivered on or before the estimate; no estimate, not on time |
| DeliveryKpis.DeliveryFrame.constructor | dashboard.py:216 | the frame holds the delivered orders |
| DeliveryKpis.DeliveryFrame.AddColumns | dashboard.py:217-218 | `delivery_time` and `on_time` are added in place and agree with every row |
| DeliveryKpis.DeliveryFrame.AverageDeliveryTime | dashboard.py:219 | the mean of the known delivery times, each counted as often as it occurs; missing exactly when none is known |
| DeliveryKpis.DeliveryFrame.OnTimeRate | dashboard.py:220 | missing for no delivered order; otherwise the on-time percentage, in [0,100] |
| DeliveryKpis.FunnelRowOf | dashboard.py:269-273 | leads are the rows of the origin (at least one), deals closed are those among them with a won date (no more than the leads), and the rate is their percentage, in [0,100] |
| DeliveryKpis.Funnel | dashboard.py:269-273 | no origin twice; each row holds its origin's lead count, the deals closed among those leads and their percentage |
| DeliveryKpis.FunnelCoversEveryOrigin | dashboard.py:269-271 | every origin that a lead has gets a funnel row |
| DeliveryKpis.TypeOf | dashboard.py:350-351 | "Repeat" exactly when the customer's order ids hold two different values |
| DeliveryKpis.RepeatIffTwoDistinctOrders | dashboard.py:350-351 | "Repeat" exactly when two orders of the customer carry different ids |
| DeliveryKpis.CustomerTypes | dashboard.py:350-351 | exactly one label per distinct customer |
| DeliveryKpis.RepeatNewShares | dashboard.py:352 | missing for no customers; otherwise the Repeat and New shares, each in [0,100] and adding up to 100 |

## Left out

- The Streamlit interface and all Plotly charts: selectboxes, sliders, metrics, chat history. These are presentation only. The selected category or state is a parameter (`SelectionMask`, `Restrict`, `FilterByCategory`).
- CSV loading, `@st.cache_data` and the GeoJSON URL are I/O. The joined tables (`merge`) are inputs, given as sequences of records.
- `gemini.py` (an external language-model client), `preprocess_reviews.py` (concurrent calls to a translation service and file I/O) and `teslda.py` (scikit-learn topic modelling) are not part of this model.
- The haversine distance and the distance bands of `dashboard.py`: floating-point trigonometry.
- Revenue totals and number formatting: display only.
- The random sample of "Other" comments. Only its size, min(30, n), is modelled, in `ProductQuality.SampleSize`.
- `to_period('M')` is an abstract `monthOf` function passed to `Fulfillment.AnalysisFrame.AddMonth`.
- Text.Lower: covers ASCII and the Latin-1 capitals only, not Python's full Unicode `lower()`.
- Text.FormatSnakeCase: title-cases ASCII letters only. Any other character, an accented letter included, is kept as it is and counts as a word break, so "éa" becomes "éA" where Python's `title()` gives "Éa".
- Floating point is modelled as exact `real` arithmetic. Results rounded with `.round(1)` and display formatting such as `:.1f` are modelled unrounded.
- Ordering:
  - the row filters (`Tally.Filter`, `Tally.Select` and the members built on them) are stated by membership and multiplicity; that they keep the input order is stated only for `Tally.Select`, through `Tally.SelectAt` and `Tally.Positions`;
  - groups and `value_counts` are produced in order of first appearance, not in pandas' sorted or count order;
  - the funnel's final `sort_values` is left out;
  - `Tally.TopK` breaks ties among equal counts by its own rule, not by pandas' `nlargest` order.
- The percentages are tied to their definitions: `rate == PercentTrue(column)` and `avg == Mean(values)`. What a percentage means (100 × count / rows, within [0,100]) is stated once, on `Tally.PercentTrue` and `Tally.Mean`.
- DeliveryKpis.Funnel: every lead has an `mql_id`, so `leads` counts all rows of an origin. The NaN-key matching of `merge` is not modelled.
- DeliveryKpis.CustomerTypes: customer and order ids are assumed present, as they are keys of the orders table.
- The comment at dashboard-prodqual.py:153 says "3 stars or less", but the code keeps scores ≤ 2. The model follows the code.

## Findings

| source | as written | input that shows it | evidently intended | confidence | as-written member | corrected member |
|---|---|---|---|---|---|---|
| dashboard-submit.py:194 | the Missing Items table lists "quantitade" | a comment reading "quantidade" (quantity) matches no keyword and gets "Lainnya" | "quantidade", as in dashboard-prodqual.py:128, labelling it "Missing Items / Partial Delivery" | high; not executed | SubmitComplaints.QuantidadeUnmatchedAsWritten | SubmitComplaints.QuantidadeIsMissingItems |
| dashboard-prodqual.py:124 | the Wrong Item table lists "cor" (colour) with no trailing space | a comment reading "correio" (post office) scores 1 for both Wrong Item and Carrier; the earlier-declared "Wrong Item Sent" wins | "cor " as in dashboard-submit.py:196, so "correio" is a carrier problem | medium; not executed | ProdQualComplaints.CorreioIsWrongItemAsWritten | ProdQualComplaints.CorreioIsCarrier |
| dashboard-prodqual.py:156-176 | `complaint_category` is added only when there are low-score reviews, but line 176 reads it unconditionally | a category or data set with no review scored ≤ 2 raises `KeyError` at line 176 | an empty "Other" subset | high; not executed | ProductQuality.OtherReviewsAsWritten | ProductQuality.OtherReviews |
