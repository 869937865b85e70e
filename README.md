# Score panel of ml-code-quality, in Dafny

The dashboard shows a project score and, under "More details", one progress
bar per recipe (a named unit of code). This model covers the logic in
`score.py` that decides what those bars show:

- **Severity bucketing.** `get_progress_bar_color` walks the fixed table
  `progress_color`, `[-10, 5) → danger`, `[5, 8) → warning`,
  `[8, 10) → success`. It returns the colour of the first band holding the
  score, or `None` when no band holds it. In the model this is
  `Score.FirstMatch`, a recursive scan over any band table, and
  `Score.ProgressBarColor`, that scan over the constant `Score.ProgressColor`.
- **Row ordering.** `progress_rows` sorts the `recipe_scores` dict by score,
  highest first, with Python's stable `sorted(..., reverse=True)`. It then
  appends one row per recipe, coloured by that recipe's own score. In the
  model, `Score.ProgressRows` is a method with a loop that builds the row
  sequence. It calls `Sorting.SortByScoreDesc`, a reference definition of
  the Python sort, whose properties are proved in the `Sorting` module.

Files:
- `wrappers.dfy`: `Option`, which stands for Python's `None`.
- `sorting.dfy`: the stable descending sort by score and its lemmas.
- `score.dfy`: the colour bands, the first-match scan, the band lemmas and
  the row builder.

Scores are Dafny `real`s. Only comparisons are applied to them.

Two behaviours of the code worth stating plainly:
- The top band is half-open like the others, so a score of exactly `10.0`
  matches no band and gets `None`: a perfect score has no colour.
- Equal scores are not tie-broken by name. The sort key is the score alone
  and Python's sort is stable, so recipes with equal scores keep their
  order in the input dict.

## Model

| member | source | states |
|---|---|---|
| Score.FirstMatch | score.py:36-39 | `None` exactly when no band of the table holds the score. If band `i` holds it and no earlier band does, the result is band `i`'s colour. |
| Score.ProgressBarColor | score.py:26-39 | Danger exactly for `-10 <= s < 5`. Warning exactly for `5 <= s < 8`, so 5.0 is warning. Success exactly for `8 <= s < 10`, so 8.0 is success. `None` exactly for `s < -10` or `s >= 10`, so 10.0 gets `None`. |
| Score.ProgressColorContiguous | score.py:26-30 | The table's bands are non-empty, and each band's upper bound is the next band's lower bound. |
| Score.BandsOrdered | score.py:26-30 | In a contiguous table, every band ends at or below the start of every later band. |
| Score.AtMostOneBand | score.py:26-38 | In a contiguous table, at most one band holds any given score. |
| Score.FirstMatchUnique | score.py:26-39 | In a contiguous table, the first-match scan returns the colour of whichever band holds the score. |
| Score.FirstMatchCovers | score.py:26-39 | A contiguous table matches exactly the scores from its first lower bound up to, but not including, its last upper bound. |
| Score.ProgressRows | score.py:41-71 | Exactly one row per dict entry. The rows' (name, score) pairs are a permutation of the entries. Scores do not increase down the rows. For every score, the recipes with that score appear in their input order (stability). Each row's colour is `ProgressBarColor` of its own score. |
| Score.SortedRows | score.py:43-45 | Rows whose (name, score) pairs are the sorted items have one row per item, are a permutation of the items, are non-increasing in score, and keep the input order among equal scores. |
| Sorting.SortByScoreDesc | score.py:43 | Stable insertion sort by score, highest first, with one entry out per entry in. Its properties are SortPermutation, SortNonIncreasing and SortStable, and StableOrderUnique shows they fix its result. |
| Sorting.SortPermutation | score.py:43 | The sorted items are a permutation of the dict's items. |
| Sorting.SortNonIncreasing | score.py:43 | The sorted items are in non-increasing score order (`reverse=True`). |
| Sorting.SortStable | score.py:43 | For every score `v`, the items with score `v` appear in the sorted result in the same order as in the input. |
| Sorting.StableOrderUnique | score.py:43 | Two sequences that are both non-increasing and agree, score by score, on their items and those items' order are equal. So the properties above determine the result of the sort completely. |

## Left out

- Dash components (`dbc.Progress`, `dbc.Row`, `dbc.Col`, `html.P`) and the style dictionaries: a row is modelled as a record of name, score and colour.
- The `"{:.2f}"` label and value formatting in `progress_rows`: float-to-string formatting.
- `build_score_card` and `build_codebert_card`: they only assemble widgets. The first reads `total_score` and `recipe_scores` off its argument. The second calls the CodeBERT analyser.
- Where `total_score` and `recipe_scores` come from: `build_score_card` only reads them off its argument (score.py:75, 84), and its one caller passes a `CodeBERTAnalyzer`, which has neither attribute (main.py:89-90). Nothing in score.py or its caller computes them, so the model takes `recipe_scores` as its input.
- main.py, codebert_analyzer.py, complexity_calculator.py and parse_code.py: UI wiring, a pretrained transformer with float thresholds, a wrapper over the radon library, and standard-library base64/UTF-8 decoding.
- Floating point: scores are exact reals, so NaN and infinities are not modelled. Under Python, a NaN score matches no band and sorts unpredictably.
- Score.ProgressRows: requires distinct names, because its input is the items of a dict. Given that, rebuilding a dict from the sorted items (`dict(sorted(...))`) keeps every item in sorted order, so the model iterates over the sorted sequence directly.
