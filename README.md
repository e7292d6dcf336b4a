# redbus dashboard: a Dafny model of its row logic

The dashboard is a Streamlit script over a table of scraped bus listings. It
adds two columns to every row: a transport corporation and a state, looked
up from the operator's free-text label in a keyword table. It then shows one
of two pages.

- The **home page** shows counts (total, government, private, distinct
  routes, distinct corporations) and the ten routes with the most buses.
- The **States and Routes page** narrows the table in a fixed order of five
  filter stages:
  1. bus category;
  2. state;
  3. an inclusive price range;
  4. A/C or non-A/C, by a keyword classifier on the bus type;
  5. an inclusive departure-hour range.

  Each stage's options or slider bounds are computed from the table as
  narrowed so far. The result is displayed with two helper columns dropped
  and the others renamed.

The model has these parts:

- It represents the table as a `seq` of row records, with `Option` for
  pandas' missing cells.
- It models the keyword lookup as the `for` loop with early return that the
  script writes (`Transport.Scan`). That loop is proved equal to a
  first-match search.
- It models the enrichment as a loop over the fetched rows.
- It models the filter block as a method that reassigns the working table
  stage by stage. The method is proved against a specification: one
  conjunction of per-stage predicates, applied with a boolean-mask selection
  `Seqs.Where`.
- It models the page switch as a class holding `st.session_state.page`.
- `Dashboard.Rerun` strings one run of the script together.

Three behaviours of the code are easy to miss:

- When the price or hour slider is left at its default full range, that
  stage is not the identity unless every row has a price (for the hour
  stage, a departure time that parses). `(col >= lo) & (col <= hi)` is false for a
  missing cell, so rows without a price, or whose departure time does not
  parse, are removed (`RoutesView.PriceFullRange`, `RoutesView.HourFullRange`).
- The state options include `""` whenever a category-filtered row's
  provider label matched no keyword. Only NaN is dropped before `sorted(...unique())`, and an
  unmatched row's `STATE` is `""`, not NaN (`RoutesView.StateOptions`).
- The A/C keywords are plain substrings:
  - "Seater Coach" counts as an A/C bus, because of the "ac" in "coach";
  - "A.C. Seater" counts as a non-A/C bus
  (`Scenarios.ClassifyCoach`, `Scenarios.ClassifyDottedAc`).

## Model

| member | source | states |
|---|---|---|
| Transport.Scan | streamlit_redbus.py:93-97 | the loop returns `Lookup` of the table; the pair returned is the first entry, in table order, whose lower-cased keyword occurs in the lower-cased label; ("", "") when no entry matches |
| Transport.GetTransportInfo | streamlit_redbus.py:80-97 | the same first-match result, over the ten-entry `transport_mapping` in its source order; since every corporation there is non-empty, ("", "") comes back exactly when no keyword matches |
| Transport.LookupFirstMatch | streamlit_redbus.py:93-96 | if entry `i` matches and no earlier one does, the lookup yields entry `i`'s corporation and state |
| Transport.LookupNoMatch | streamlit_redbus.py:97 | if no entry matches, the lookup yields ("", "") |
| Transport.LookupCases | streamlit_redbus.py:93-97 | every lookup is either some entry's first match or the empty pair with no entry matching |
| Scenarios.LookupKnownProvider | streamlit_redbus.py:80-96 | "APSRTC", in either case, maps to ("APSRTC", "Andhra Pradesh") |
| Scenarios.MatchesApsrtc | streamlit_redbus.py:80-96 | any label that lower-cases to "apsrtc" is matched first by the second entry |
| Scenarios.LookupUnknownProvider | streamlit_redbus.py:97 | the label "Unknown Operator", which contains no keyword, maps to ("", "") |
| Scenarios.UnknownMisses | streamlit_redbus.py:80-97 | no entry of the table matches "Unknown Operator" |
| Scenarios.MissingChar | streamlit_redbus.py:95 | a keyword needing a character the label lacks does not match |
| Text.ContainsIff | streamlit_redbus.py:95 | `pat in text` holds exactly when the pattern occurs at some position |
| Text.ContainsInfix | streamlit_redbus.py:95 | a text contains every infix of itself |
| Text.ContainsChars | streamlit_redbus.py:95 | a text that contains a pattern contains each of the pattern's characters |
| Text.LowerIdempotent | streamlit_redbus.py:95 | lower-casing twice is lower-casing once |
| Enrichment.Enrich | streamlit_redbus.py:78-102 | one row out per row in; S.No is 1, 2, 3…; each row keeps its cells with the date reformatted, and carries `get_transport_info` of its label as corporation and state |
| Enrichment.NumberedDistinct | streamlit_redbus.py:101-102 | distinct S.No labels make the rows pairwise distinct |
| Enrichment.SubseqKeepsLabels | streamlit_redbus.py:101-102 | in any in-order selection from a consecutively labelled table, every row is the table row its label names, and labels increase |
| Enrichment.SelectionKeepsLabels | streamlit_redbus.py:101-102 | the same for a selection from the enriched table, with labels starting at 1 |
| Home.Summarize | streamlit_redbus.py:110-114 | the total is the row count; the government count is the number of rows whose lower-cased type contains "gov", at most the total; government plus private equals the total; private is the count of the other rows; the unique-route and unique-corporation counts are the numbers of distinct route names and distinct corporations, each between 1 (for a non-empty table) and the total; the unique-route count equals the number of groups the top-routes chart ranks |
| Home.NUniqueBounds | streamlit_redbus.py:113-114 | a column has no more distinct values than cells, and at least one when it is non-empty |
| Home.FirstAppearance | streamlit_redbus.py:137 | the groups of `value_counts`: each distinct value once, and only values of the column |
| Home.InsertByCount | streamlit_redbus.py:137 | inserting into a list ordered by count keeps the order and adds exactly that value |
| Home.RestBelowHead | streamlit_redbus.py:137 | values inserted after a head whose count is at least the new value's have counts at most the head's |
| Home.SortByCount | streamlit_redbus.py:137 | the result is ordered by non-increasing count and is a permutation of the input |
| Home.PermutationNoDuplicates | streamlit_redbus.py:137 | a permutation of a duplicate-free list is duplicate-free |
| Home.RepeatCountsTwice | streamlit_redbus.py:137 | a value at two positions has multiplicity at least 2 |
| Home.CountsAtMostOne | streamlit_redbus.py:137 | a duplicate-free list holds each value at most once |
| Home.Ranked | streamlit_redbus.py:137 | `value_counts()`: every distinct route exactly once, by non-increasing count |
| Home.TopCounts | streamlit_redbus.py:137 | `nlargest(10)` keeps min(number of groups, 10) rows |
| Home.TopCountsAt | streamlit_redbus.py:137 | row `i` of the top table is the `i`-th ranked value with its count |
| Home.TopCountsExact | streamlit_redbus.py:137-138 | each listed route occurs in the column, its count is its number of rows, and no route is listed twice |
| Home.TopCountsDescending | streamlit_redbus.py:137 | counts never increase down the table |
| Home.TopCountsLargest | streamlit_redbus.py:137 | a value left out has no more rows than any listed value |
| Home.RankedPrefix | streamlit_redbus.py:137 | a value outside the first `n` ranked has no more rows than any of them |
| Home.TopRoutesSpec | streamlit_redbus.py:137-138 | about `Home.TopRoutes`, the top-routes table the home page shows: at most 10 rows, exactly min(distinct routes, 10); each count is the number of rows with that route; counts non-increasing; routes distinct; every unlisted route has no more buses than each listed one |
| Home.DistinctCount | streamlit_redbus.py:137 | the number of groups equals `nunique()` |
| Home.DistinctSetSize | streamlit_redbus.py:113 | a duplicate-free list has as many distinct values as entries |
| RoutesView.ClassifyAcType | streamlit_redbus.py:200-206 | always "A/C Bus" or "Non A/C Bus"; "A/C Bus" exactly when the lower-cased type contains "a/c", "ac" or "a c" and does not contain "non" |
| Scenarios.ClassifyAcSleeper | streamlit_redbus.py:200-206 | "A/C Sleeper (2+1)" is an A/C bus |
| Scenarios.ClassifyNonAc | streamlit_redbus.py:203-204 | "NON A/C Seater (2+2)" is not: "non" wins over the keyword |
| Scenarios.ClassifyNoKeyword | streamlit_redbus.py:206 | "Sleeper (2+1)" has no keyword and is not an A/C bus |
| Scenarios.ClassifyCoach | streamlit_redbus.py:202-205 | "Seater Coach" is an A/C bus, through the "ac" inside "coach" |
| Scenarios.ClassifyDottedAc | streamlit_redbus.py:200-206 | "A.C. Seater" matches no keyword and is not an A/C bus |
| Scenarios.NoPairNoMatch | streamlit_redbus.py:202 | a pattern whose first two characters never stand side by side in the text is not in it |
| RoutesView.FilterRoutes | streamlit_redbus.py:180-220 | the state options are "All" then the sorted distinct states of the category-filtered rows; the price bounds come from the rows after the state stage; the hour bounds come from the rows after the A/C stage; the result is exactly the enriched rows passing every active stage, in table order, with their A/C type and parsed hour attached |
| RoutesView.CategoryStep | streamlit_redbus.py:183-186 | the category stage keeps the rows whose lower-cased type contains the lower-cased choice; "All" is the identity |
| RoutesView.StateStep | streamlit_redbus.py:188-190 | the state stage keeps exactly the rows with that `STATE`; "All" leaves the table as the category stage left it |
| RoutesView.PriceStep | streamlit_redbus.py:193-197 | the price mask is applied only when some price is present, and then keeps the rows whose price lies in the range, inclusive |
| RoutesView.AcStep | streamlit_redbus.py:208-212 | adding the `AC Type` column and selecting on it equals selecting on the classifier's verdict and adding the column after |
| RoutesView.HourColumn | streamlit_redbus.py:208-215 | the two added columns are the classifier's verdict and the parsed hour of the row's own cells |
| RoutesView.HourStep | streamlit_redbus.py:215-220 | the hour mask is applied only when some hour parsed, and then keeps the rows whose hour lies in the range, inclusive |
| RoutesView.ViewKeepsOrder | streamlit_redbus.py:180-220 | without its two added columns, the result is an in-order subsequence of the enriched table |
| RoutesView.ViewMembers | streamlit_redbus.py:180-220 | a row is in the result if and only if its enriched row is in the table and passes every active stage, with the verdict and hour of that row |
| RoutesView.ViewInRanges | streamlit_redbus.py:193-220 | when a slider is shown, every surviving row has a value in that column within the chosen range |
| RoutesView.PriceSliderHidden | streamlit_redbus.py:193 | the price slider is skipped exactly when no row has a price |
| RoutesView.PriceFullRange | streamlit_redbus.py:193-197 | at the default full range, the price stage keeps exactly the rows with a price; it is the identity exactly when every row has one |
| RoutesView.HourBoundsInDay | streamlit_redbus.py:215-218 | the hour slider's bounds satisfy 0 <= min <= max <= 23 |
| RoutesView.HourSliderHidden | streamlit_redbus.py:216 | the hour slider is skipped exactly when no departure time parses |
| RoutesView.HourFullRange | streamlit_redbus.py:215-220 | at the default full range, the hour stage keeps exactly the rows whose time parsed |
| RoutesView.StateOptions | streamlit_redbus.py:188 | the options are "All", then strictly ascending states; a state is offered exactly when some category-filtered row has it, `""` included |
| Seqs.Where | streamlit_redbus.py:183-220 | a boolean-mask selection keeps exactly the input rows the mask accepts, in order, and never more rows |
| Seqs.WhereAll | streamlit_redbus.py:183-190 | a mask that accepts every row selects the whole table |
| Seqs.WhereIdempotent | streamlit_redbus.py:183-190 | applying the same mask twice equals applying it once |
| Seqs.WhereWhere | streamlit_redbus.py:183-220 | two masks in succession select what their conjunction selects |
| Seqs.WherePartition | streamlit_redbus.py:111-112 | a mask and its negation split the rows between them |
| Seqs.WhereExt | streamlit_redbus.py:183-220 | masks that agree on the table's rows select the same rows |
| Seqs.WhereMap | streamlit_redbus.py:208-212 | deriving a column then masking on it equals masking on the derivation, then deriving |
| Seqs.MapMap | streamlit_redbus.py:208-215 | deriving one column after another equals deriving both at once |
| Seqs.SubseqDetermined | streamlit_redbus.py:183-220 | in a table without repeated rows, an in-order selection is fixed by which rows it holds |
| Seqs.SubseqRefl | streamlit_redbus.py:184 | a table is a selection of itself |
| Seqs.SubseqTrans | streamlit_redbus.py:183-220 | a selection of a selection is a selection of the original |
| Seqs.SubseqMembers | streamlit_redbus.py:183-220 | a selection holds only rows of its source |
| Seqs.SubseqMap | streamlit_redbus.py:208-215 | adding a column to both tables keeps one a selection of the other |
| Seqs.Bounds | streamlit_redbus.py:193-218 | `min()`/`max()` skipping NaN: `None` exactly when every cell is missing; otherwise min <= max, both occur in the column, and every present value lies between them |
| Text.SortedDistinct | streamlit_redbus.py:188 | `sorted(unique())`: strictly ascending, and holding exactly the values of the input |
| Text.InsertSorted | streamlit_redbus.py:188 | inserting into a strictly ascending list keeps it strictly ascending and adds exactly that value |
| Text.StrictlySortedUnique | streamlit_redbus.py:188 | two strictly ascending lists with the same values are equal |
| Text.HeadIsLeast | streamlit_redbus.py:188 | the head of a strictly ascending list is below every later value |
| Text.SameElementsEmpty | streamlit_redbus.py:188 | a list with the same values as the empty list is empty |
| Text.LessIrreflexive | streamlit_redbus.py:188 | Python's string `<` is irreflexive |
| Text.LessTransitive | streamlit_redbus.py:188 | it is transitive |
| Text.LessTotal | streamlit_redbus.py:188 | two different strings are ordered one way or the other |
| Text.LessAsymmetric | streamlit_redbus.py:188 | never both ways |
| Display.Present | streamlit_redbus.py:223-238 | the displayed table has one row per filtered row, each keeping its S.No |
| Display.RestorePresent | streamlit_redbus.py:223-238 | the display loses only the two dropped columns: they alone rebuild the filtered table |
| Display.PresentRestore | streamlit_redbus.py:224-238 | every other column has a display name: presenting a rebuilt table gives back the displayed one |
| Session.NextPage | streamlit_redbus.py:61-70 | "routes" after the routes button; "home" after the home button alone; without a click, the page the session held, or "home" on the first run |
| Session.FirstRunIsHome | streamlit_redbus.py:61-62 | a new session shows the home page |
| Session.NoClickKeepsPage | streamlit_redbus.py:64-70 | a run without a click keeps the page |
| Session.ButtonsOverwrite | streamlit_redbus.py:66-70 | a button sets its page whatever the session held |
| Session.ClickIdempotent | streamlit_redbus.py:61-70 | repeating the same clicks changes nothing |
| Session.SessionState.constructor | streamlit_redbus.py:61 | a new session holds no page |
| Session.SessionState.Run | streamlit_redbus.py:61-70 | after a run the page is `NextPage` of the page before and the clicks |
| Dashboard.Rerun | streamlit_redbus.py:61-238 | the page is updated; the enriched table is built; the home screen shows exactly `Summarize` and `TopRoutes` of it; otherwise the routes screen shows the filter panel and the presented filtered table |
| Dashboard.ShownLabels | streamlit_redbus.py:101-238 | the routes table has no more rows than the enriched table; each displayed row shows the enriched row its S.No names; S.No increases down the table |

## Left out

- Fetching the table from MySQL (streamlit_redbus.py:43-57) is I/O and is not modelled. The fetched rows are an input sequence. The `id` drop (75-76) is reflected by `Listing` having no id field.
- CSS, markdown, the metric cards and every Plotly chart (7-40, 117-133, 139-171) are rendering and are not modelled.
- The average price per route (161) is a floating-point mean and is not modelled.
- Date reformatting (78) is a pandas call. It is the parameter `formatDate`.
- The latest scrape date (115) is a string maximum over reformatted dates and is not modelled.
- The `HH:MM` time parse (215) is a pandas call. It is the parameter `parse`, an arbitrary function to an optional hour in 0..23.
- The `int()` truncation of the price bounds (194-195) is not modelled. Prices are integers in the model.
- Every text cell (`type`, `route_name`, `state_name`, `bustype`, `departing_time`) is assumed present. A NULL there is not modelled: a NULL `type` makes the masks at lines 111 and 185 raise, `nunique`/`value_counts` (113, 137) skip a NULL `route_name`, and `str()` turns a NULL label or bus type into "None" or "nan" (95, 201). That error path and those renderings are left out.
- Text.Lower: covers ASCII letters only; Python's `str.lower()` also folds other Unicode letters.
- RoutesView.FilterRoutes: requires the category value to be one of the selectbox's three options. `str.contains` reads its argument as a regular expression, and those options contain no metacharacters, so substring search is exact for them.
- RoutesView.FilterRoutes: takes the state, A/C and slider values as given; Streamlit's guarantee that they lie among the offered options or inside the slider bounds is not modelled.
- Home.Ranked: orders equal counts by first appearance in the table; pandas leaves the order of ties unspecified.
- The positions at which `insert(2, …)` and `insert(3, …)` place the two new columns (99-100), and the column order of the display, are not modelled. Columns are record fields.
- Streamlit's rerun-per-interaction execution is reduced to one call of `Dashboard.Rerun` per run. The session object persists between calls.
- Clicking both buttons in one run is allowed by the model; the later-read routes button wins, as the code's order of statements gives.
