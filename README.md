# MagTag contribution graph, modelled in Dafny

This project models the core of a CircuitPython script (`code.py`). The script draws a
GitHub contribution calendar on the 296x128 e-ink display of an Adafruit MagTag.
It takes a flat list of daily contribution counts, oldest first, and does four things:

- It cuts the list into weekly columns of seven days. The last column may be shorter.
- It keeps only the last 32 columns.
- It draws each kept day as an 8x8 rectangle with a 1-pixel gap, starting at x = 4, y = 3.
- It shades each rectangle in one of five greys, relative to the largest count.

Beside the grid it shows three statistics: the best day, the total and the current streak.

The model has three modules:

- `ContributionStats` (`stats.dfy`) covers the statistics: `max` with and without a default,
  `sum`, and the reverse streak loop.
- `ContributionGraph` (`graph.dfy`) covers `draw_contribution_graph`:
  - The chunking loop and the truncation are the method `WeekColumns`.
  - The nested drawing loops are `DrawContributionGraph`, with the inner loop as `DrawWeek`.
  - The if-chain that picks a colour is the function `Bucket`.
  - Every method is proved against the specification functions `Window` (the days that are
    drawn), `Grid`, `ColumnCells` and `Layout` (the cells in emission order).
- `LayoutProperties` (`properties.dfy`) proves what the drawn grid promises:
  - the cell count;
  - which day each cell shows;
  - that every cell lies on the display;
  - the emission order and that no two cells overlap;
  - the shading facts.

Appending a `Rect` to `magtag.graphics.splash` is modelled as appending a
`Cell(x, y, width, height, color)` to the returned sequence.

Three points a reader might not expect:

- The colour scale `max_contrib` is the maximum over the WHOLE input, taken before any week is
  dropped (code.py:125). It is not the maximum of the drawn window. `DroppedDayScalesWindow`
  shows the consequence: a large dropped day can keep every drawn day from being black.
- Truncation keeps the last 32 chunks as chunked from the start of the list. It does not keep the
  last 224 days. When the length is not a multiple of 7, between 218 and 224 days are drawn
  (`LayoutCount`).
- On the synthetic-data path, `best = max(contributions)` has no default, so `FakeStats` requires
  a non-empty list. Python raises on an empty list there, and the script always passes 224 days.

## Model

| member | source | states |
|---|---|---|
| `ContributionStats.Best` | code.py:89 | the best day is at least every count, is one of the counts, and is 0 for an empty list |
| `ContributionStats.Sum` | code.py:203 | the total is 0 exactly when every day is 0 |
| `ContributionStats.CurrentStreak` | code.py:91-96 | the streak is at most the length; the last `streak` days are all non-zero; either every day is non-zero or the day just before them is 0 (together, the predicate `IsStreak`) |
| `ContributionStats.StreakUnique` | code.py:91-96 | `IsStreak`, the three conditions above, determines the streak: at most one value meets them |
| `ContributionStats.FetchedStats` | code.py:88-96 | best day as `max(...) if contributions else 0`, and a streak that meets the streak conditions (0 for an empty list) |
| `ContributionStats.FakeStats` | code.py:202-210 | for a non-empty list: total is the sum, best is a count that bounds all counts, and the streak meets the streak conditions |
| `ContributionStats.BestAtMostSum` | code.py:203-204 | the best day never exceeds the total |
| `ContributionStats.SumAtMostDaysTimesBest` | code.py:203-204 | the total never exceeds the number of days times the best day |
| `ContributionGraph.Bucket` | code.py:165-174 | the colour is one of the five greys, and it is the lightest one (0xEEEEEE) exactly when the count is 0 |
| `ContributionGraph.BucketMatchesFractions` | code.py:167-172 | the integer thresholds `4c <= m`, `2c <= m`, `4c <= 3m` pick the same shade as `c <= 0.25m`, `c <= 0.5m`, `c <= 0.75m` over exact rationals, in the same order |
| `ContributionGraph.BucketMonotone` | code.py:165-174 | a larger count never gets a lighter shade |
| `ContributionGraph.BucketAtScale` | code.py:165-174 | with a positive scale, a count reaching the scale is black (0x000000), and a non-zero count at most a quarter of it is 0xAAAAAA |
| `ContributionGraph.MaxContrib` | code.py:124-127 | the scale is at least 1 and bounds every count of the whole input; it is one of the counts or 1, and it is 1 when every count is 0 |
| `ContributionGraph.FirstKept` | code.py:151-153 | the number of dropped days is a multiple of 7 and at most the length; at most 224 days remain, none are dropped for 224 days or fewer, and more than 217 remain otherwise |
| `ContributionGraph.NumWeeks` | code.py:148 | the number of chunks `range(0, n, 7)` yields is `n / 7` rounded up: `n <= 7*weeks < n + 7` |
| `ContributionGraph.Week` | code.py:149 | chunk `week` is 1 to 7 days long, shorter only at the end of the input, and its day `d` is input day `7*week + d` |
| `ContributionGraph.Window` | code.py:151-153 | the drawn days are a suffix of the input of at most 224 days, and the whole input when it has at most 224 days |
| `ContributionGraph.WeekColumns` | code.py:146-153 | at most 32 chunks; kept chunk `w` is days `7w` to `7w+7` of the window, so the kept chunks are the last chunks of the input |
| `ContributionGraph.ChunksConcatenate` | code.py:147-149 | the seven-day chunks concatenate back to the input: nothing is lost, repeated or reordered |
| `ContributionGraph.FlattenPrefix` | code.py:147-149 | the first `k` chunks concatenate to the first `7k` days (or to all the days) |
| `ContributionGraph.KeptWeek` | code.py:151-153 | the chunk kept in column `w` is chunk `first/7 + w` of the input and chunk `w` of the window |
| `ContributionGraph.CellOf` | code.py:160-176 | the `Rect` for one day is 8x8, lies on the 296x128 display whenever its column is below 32 and its row below 7, and has the lightest shade exactly when the count is 0 |
| `ContributionGraph.Grid` | code.py:158-177 | the flat cell list of the kept days has one cell per kept day; `GridAt` states which cell |
| `ContributionGraph.ColumnCells` | code.py:159-177 | the cells of one weekly column, one per day of the week |
| `ContributionGraph.GridColumn` | code.py:157-161 | drawing kept week `w` as column `w` extends the grid by exactly that week's days, in order |
| `ContributionGraph.GridColumnPrefix` | code.py:159-161 | the first `d` days of kept week `w` extend the grid by the first `d` cells of column `w` |
| `ContributionGraph.GridExtend` | code.py:158-161 | one more kept day appends its cell, at column `k / 7` and row `k % 7`, to the grid |
| `ContributionGraph.DayPosition` | code.py:158-161 | arithmetic helper for the proofs: `7w + d` with `d < 7` splits back into `w` and `d` |
| `ContributionGraph.DrawWeek` | code.py:159-178 | the inner loop appends one cell per day of the week, in day order, at column `weekIdx`, row `dayIdx` |
| `ContributionGraph.DrawContributionGraph` | code.py:110-180 | the drawn cells are exactly `Layout` of the input (`Grid` over `Window` with scale `MaxContrib`): one cell per kept day, in order, placed and shaded as the lemmas below state |
| `LayoutProperties.GridAt` | code.py:158-161 | grid cell `i` shows kept day `i` at column `i / 7`, row `i % 7` |
| `LayoutProperties.LayoutAt` | code.py:158-177 | emitted cell `i` of `Layout` is the `CellOf` that shows input day `first + i` at `x = 4 + 9*(i/7)`, `y = 3 + 9*(i%7)`, shaded against the whole input's scale |
| `LayoutProperties.LayoutEmpty` | code.py:118-120 | an empty list draws no cells |
| `LayoutProperties.LayoutCount` | code.py:147-153 | up to 224 days every day gets one cell; beyond that the count is `n - 7*(ceil(n/7) - 32)`, between 218 and 224 |
| `LayoutProperties.SmallInputDrawsEveryDay` | code.py:147-161 | up to 224 days, cell `i` shows input day `i` |
| `LayoutProperties.ColumnRowBounds` | code.py:132-133 | arithmetic helper for the proofs: an index below 224 has `i / 7` below 32 and `i % 7` below 7 |
| `LayoutProperties.LayoutInsideDisplay` | code.py:132-161 | `start_x` is 4; every cell is 8x8 with x in 4..283 and y in 3..57, inside the 296x128 display |
| `LayoutProperties.ColumnMajor` | code.py:158-159 | arithmetic helper for the proofs: `(i / 7, i % 7)` increases lexicographically with `i` |
| `LayoutProperties.LayoutOrder` | code.py:158-161 | cells are emitted week-major then day-minor: a later cell is further right, or in the same column and further down |
| `LayoutProperties.LayoutNoOverlap` | code.py:134-161 | no two cells overlap; the 1-pixel gap separates every pair |
| `LayoutProperties.AllZeroIsEmpty` | code.py:125-127 | an all-zero input draws only 0xEEEEEE cells |
| `LayoutProperties.BestDayIsBlack` | code.py:165-174 | a drawn day that holds the positive best day of the input is black |
| `LayoutProperties.DroppedDayScalesWindow` | code.py:125-153 | a drawn day at most three quarters of some dropped day is never black |
| `LayoutProperties.KeptChunksAreWindow` | code.py:147-153 | the kept chunks concatenate to the input from a multiple of 7 onward |

## Left out

- Fetching from GitHub (code.py:24-108) is left out: secrets loading, WiFi, the GraphQL POST, JSON indexing and the flatten loop over the response. This is network I/O. `FetchedStats` models only its best-day and streak computation. The API's `totalContributions` is an external value.
- Synthetic data (code.py:187-200, 216-224) is left out. It draws unseeded `random.randint` values. Only the statistics computed from the resulting list are modelled, by `FakeStats`.
- The display SDK is left out: the logo bitmap, the username pill, the text widgets, `set_text` and `refresh` (code.py:241-318). It is all hard-coded placement of SDK objects.
- Power settings and deep sleep (code.py:14-19, 324) are left out, and so are all `print` calls.
- `rect_count` in `draw_contribution_graph` is left out. It is only printed; the number of cells is `|DrawContributionGraph(...)|`.
- Bucket: compares integers exactly, not as floats. CircuitPython floats are single precision with a 22-bit mantissa, and the count is converted to a float for the comparison. Both agree for realistic daily counts (below about two million, where `3 * max_contrib` still fits the mantissa); beyond that, rounding may move a count across a threshold. `BucketMatchesFractions` proves the agreement over exact rationals.
- The geometry is fixed to this script's constants: 32 weeks, 8x8 cells, a 1-pixel gap and a 296x128 display. Other screen layouts are not part of this model.
- The `if contributions else 1` default of `max_contrib` is unreachable after the early return for an empty list, so it has no separate path.
- Daily counts are modelled as `nat`. Negative counts, which the script would shade 0xAAAAAA, are outside the model. Every caller passes non-negative counts: GitHub's `contributionCount` and `random.randint(0, ...)` (code.py:195-199).
