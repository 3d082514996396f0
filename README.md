# Fuzzy video-game recommender: a verified model

The system recommends video games by genre. It exists twice: a command-line
program (`recommended.py`) and a Qt program (`recommended_gui.py`). Both work
the same way:

1. At start-up they load a table of games and normalise it in place:
   - missing cells get per-column defaults;
   - `User_Score` is coerced to a number and rescaled by 10;
   - score cells equal to 0 are replaced by the column mean.
2. They build a Mamdani fuzzy controller:
   - a genre input with terms `match` and `not_match` on {0, 1};
   - a recommendation output with terms `low`, `medium` and `high` on 0..10;
   - two rules, match → high and not_match → low.
3. A query writes a case-insensitive genre match (0 or 1) into every row, then
   writes the controller's crisp score. It keeps the rows that pass the query's
   conditions, in table order, and projects them to a fixed set of columns:
   - the command line asks only for `Recommendation >= threshold`;
   - the GUI also filters on platform, minimum user score and ESRB rating.

The model is split into these modules:

| file | module | contents |
|---|---|---|
| `wrappers.dfy` | `Wrappers` | `Option` and `Result` |
| `strings.dfy` | `Strings` | ASCII lower-casing, literal substring search, the decimal parser behind `pd.to_numeric` |
| `seqs.dfy` | `Seqs` | order-preserving `Filter` (boolean-mask indexing) and subsequences |
| `table.dfy` | `Table` | cells (`Missing`, `Text`, `Number`), the 16-column row, column get/set, column sum and mean |
| `fuzzy.dfy` | `Fuzzy` | `trimf`, the two variables, the rules, clipping, max-aggregation, centroid and the score with its fallback |
| `simulation.dfy` | `Simulation` | the shared `ControlSystemSimulation` object (input slot, output slot, `compute()`) and `get_recommendation` |
| `preprocess.dfy` | `Preprocess` | the start-up normalisation of either program as functions on a sequence of rows |
| `recommend.dfy` | `Recommend` | `get_genre_match` in both forms, annotation, the two masks, projection and selection |
| `pipeline.dfy` | `Pipeline` | the mutable table `df` as a class over an array of rows, with in-place methods proved against the functions above |

`Variant` (`Cli` or `Gui`) selects between the two programs wherever they differ:
- which columns are filled;
- which columns are mean-replaced;
- how `get_genre_match` is written;
- which mask and which projection are used.

## Model

| member | source | states |
|---|---|---|
| Strings.LowerIdempotent | recommended.py:55 | lower-casing twice is lower-casing once |
| Strings.Lower | recommended.py:55 | `str.lower` keeps the length, leaves no ASCII capital, and changes only capitals, each to its small letter |
| Strings.ContainsIff | recommended_gui.py:70 | the substring search is true exactly when the pattern occurs at some index of the text |
| Strings.ContainsEmpty | recommended_gui.py:70 | the empty pattern occurs in every text |
| Strings.Contains | recommended_gui.py:70-72 | no contract of its own; `Strings.ContainsIff` and `Strings.ContainsEmpty` state what `str.contains` finds |
| Strings.IndexOf | recommended.py:25 | the index found is the first occurrence of the character, or the length when it does not occur |
| Strings.ParseDecimal | recommended.py:25 | empty text never parses; `Strings.ParseNatText`, `Strings.ParseOneDecimal`, `Strings.ParseFraction`, `Strings.ParseNegatedNat`, `Strings.ParsePlusNat`, `Strings.ParseNegatedFraction` and `Strings.ParseExamples` state the values `to_numeric` reads |
| Strings.NatTextDigits | recommended.py:25 | the decimal text of a natural number is all digits and denotes that number |
| Strings.ParseNatText | recommended.py:25 | `to_numeric` maps the decimal text of any natural number back to that number |
| Strings.UnsignedOneDecimal | recommended.py:25 | digits, a point and one digit d read as the digits' value plus d/10 |
| Strings.ParseOneDecimal | recommended.py:25 | `to_numeric` reads a whole number w followed by one decimal digit d, the form user scores such as "8.5" take, as w + d/10 |
| Strings.ParseFraction | recommended.py:25 | `to_numeric` reads a whole number w, a point and any non-empty run of digits f as w plus f divided by ten to the power of its length, as "12.75" is 12 + 75/100 |
| Strings.ParseNegatedNat | recommended.py:25 | `to_numeric` reads a minus sign followed by the decimal text of n as -n |
| Strings.ParsePlusNat | recommended.py:25 | `to_numeric` reads a plus sign followed by the decimal text of n as n |
| Strings.ParseNegatedFraction | recommended.py:25 | `to_numeric` reads "-w.f" as the negation of what "w.f" reads as |
| Strings.ParseExamples | recommended.py:25 | "8.5" parses to 8.5 and "tbd" is unparseable |
| Seqs.Filter | recommended.py:72 | mask indexing keeps exactly the elements satisfying the mask, with their multiplicities, as a subsequence of the input |
| Seqs.FilterDropsMiddle | recommended.py:72 | of a three-element sequence where only the middle element fails, the outer two are kept in order |
| Seqs.FilterMonotone | recommended_gui.py:68-73 | a stronger mask keeps a subsequence of what a weaker mask keeps |
| Seqs.SubsequenceLength | recommended_gui.py:68-73 | a subsequence is no longer than its sequence |
| Table.Set | recommended.py:68-70 | assigning one column of a row sets that column and leaves every other column unchanged |
| Table.RowExtensionality | recommended.py:68-70 | two rows agreeing on every column are equal |
| Table.Mean | recommended.py:29-30 | no contract of its own; `Preprocess.MeanAgrees`, `Preprocess.ReplaceZeros`, `Preprocess.CriticExampleFilled` and `Pipeline.Dataset.ColumnMean` state that `Series.mean` is the column sum over the row count, zeros included |
| Fuzzy.Trimf | recommended.py:37-43 | membership lies in [0, 1], is 1 exactly at the peak b, and is positive exactly strictly inside (a, c) or at b |
| Fuzzy.Range | recommended.py:33-34 | `np.arange(lo, hi, 1)` has hi - lo points (none when hi <= lo), all in [lo, hi), each one more than the last |
| Fuzzy.GenreVariable | recommended.py:33-38 | no contract of its own; `Fuzzy.ControlIsValid` and `Fuzzy.GenreTermsAreIndicators` state its universe {0, 1} and its two indicator terms |
| Fuzzy.RecommendationVariable | recommended.py:34-43 | no contract of its own; `Fuzzy.ControlIsValid`, `Fuzzy.MatchCurve` and `Fuzzy.NoMatchCurve` state its 0..10 universe and its `low` and `high` terms, and `Fuzzy.MediumIrrelevant` that `medium` plays no part |
| Fuzzy.Rules | recommended.py:46-47 | no contract of its own; `Fuzzy.FiredRule`, `Fuzzy.MatchCurve` and `Fuzzy.NoMatchCurve` state that match fires `high` and not_match fires `low` |
| Fuzzy.Control | recommended.py:33-50 | no contract of its own; `Fuzzy.ControlIsValid`, `Fuzzy.GenreTermsAreIndicators`, `Fuzzy.MatchCurve` and `Fuzzy.NoMatchCurve` state its terms and rules |
| Fuzzy.GenreTermsAreIndicators | recommended.py:33-38 | on the genre universe {0, 1}, `match` is the indicator of 1 and `not_match` is the indicator of 0 |
| Fuzzy.FiringStrength | recommended.py:46-47 | a rule's firing strength lies in [0, 1] |
| Fuzzy.Clip | recommended.py:46-47 | the clipped output exceeds neither the firing strength nor the term's membership, and equals one of them |
| Fuzzy.Implication | recommended.py:46-47 | a rule's clipped output is non-negative and exceeds neither the rule's firing strength nor its consequent term's membership |
| Fuzzy.AggregateAt | recommended.py:46-50 | the aggregate lies in [0, 1], is at least every rule's clipped output, and when positive equals one of them |
| Fuzzy.Aggregated | recommended.py:46-50 | the aggregated curve has one value per point of the recommendation universe |
| Fuzzy.MediumIrrelevantAt | recommended.py:42-47 | rules that never conclude `medium` aggregate the same whatever `medium` is |
| Fuzzy.MediumIrrelevant | recommended.py:42-50 | replacing the `medium` triangle by any other leaves every computation's outcome unchanged |
| Fuzzy.Centroid | recommended.py:62-63 | the centroid exists exactly when the curve has non-zero mass, and then balances the curve: centroid times mass equals moment |
| Fuzzy.Infer | recommended.py:62 | no contract of its own; `Fuzzy.MatchScore`, `Fuzzy.NoMatchScore`, `Fuzzy.MediumIrrelevant` and `Simulation.ControlSystemSimulation.Compute` state when `compute()` succeeds and what it yields |
| Fuzzy.MassNonNegative | recommended.py:62 | a non-negative curve has non-negative mass |
| Fuzzy.MassPositive | recommended.py:62 | a non-negative curve that is positive somewhere has positive mass |
| Fuzzy.MassZero | recommended.py:62 | a curve that is zero everywhere has zero mass |
| Fuzzy.MomentAboutShift | recommended.py:62 | the moment about a pivot t is the moment minus t times the mass |
| Fuzzy.MomentAboutNonNegative | recommended.py:62 | mass only at or above t gives a non-negative moment about t |
| Fuzzy.MomentAboutPositive | recommended.py:62 | additionally, some mass strictly above t gives a positive moment about t |
| Fuzzy.MomentAboutNonPositive | recommended.py:62 | mass only at or below t gives a non-positive moment about t |
| Fuzzy.MomentAboutNegative | recommended.py:62 | additionally, some mass strictly below t gives a negative moment about t |
| Fuzzy.RatioBelowOne | recommended.py:37-43 | a rising or falling triangle side takes values strictly between 0 and 1 |
| Fuzzy.CentroidWithinSupport | recommended.py:62-63 | a non-negative curve with some positive point computes, and its centroid lies within the hull of its support, strictly inside a bound that a positive point lies strictly inside |
| Fuzzy.SupportMoments | recommended.py:62 | a curve supported within [lo, hi] has a non-negative moment about lo and a non-positive one about hi, strictly so when the given positive point lies strictly above lo, or strictly below hi |
| Fuzzy.CentroidAboveLow | recommended.py:62-63 | the centroid of a curve supported at or above lo computes and is at least lo, and exceeds lo when the given positive point does |
| Fuzzy.CentroidBelowHigh | recommended.py:62-63 | the centroid of a curve supported at or below hi computes and is at most hi, and is below hi when the given positive point is |
| Fuzzy.ControlIsValid | recommended.py:33-50 | the controller's five triangles are well-formed |
| Fuzzy.FiredRule | recommended.py:46-50 | where the aggregate is positive it equals the clipped output of one of the two rules |
| Fuzzy.MatchCurve | recommended.py:41-47 | for genre match 1 the curve is positive only on (5, 10] and reaches 1 at 10 |
| Fuzzy.NoMatchCurve | recommended.py:41-47 | for genre match 0 the curve is positive only on [0, 5) and reaches 1 at 0 |
| Fuzzy.MatchScore | recommended.py:41-63 | a matching genre always computes, and scores above 5 and at most 10 |
| Fuzzy.NoMatchScore | recommended.py:41-63 | a non-matching genre always computes, and scores at least 0 and below 5 |
| Fuzzy.DefaultThresholdSeparates | recommended.py:67-72 | for genre match 0 or 1, a score reaches the default threshold 5 exactly when the genre matches |
| Fuzzy.PositivePoint | recommended.py:62 | a non-negative curve with non-zero mass is positive at some point |
| Fuzzy.ScoreWithin | recommended.py:58-65 | any score, including the fallback 0, lies within bounds that enclose the universe and 0 |
| Fuzzy.ScoreRange | recommended.py:58-65 | every score lies in [0, 10] |
| Fuzzy.FailureScoresZero | recommended.py:61-65 | a failed computation scores 0, which a threshold keeps exactly when the threshold is at most 0 |
| Fuzzy.Score | recommended.py:58-65 | no contract of its own; `Fuzzy.MatchScore`, `Fuzzy.NoMatchScore`, `Fuzzy.ScoreRange` and `Fuzzy.FailureScoresZero` state the values `get_recommendation` returns |
| Simulation.ControlSystemSimulation.constructor | recommended.py:51 | a new simulation holds its system and has empty input and output slots |
| Simulation.ControlSystemSimulation.SetInput | recommended.py:59 | writing the genre input fills the input slot with that value |
| Simulation.ControlSystemSimulation.Compute | recommended.py:62 | compute succeeds exactly when an input is set and the centroid is defined; on success the output holds the inferred value; on failure the output slot is unchanged |
| Simulation.GetRecommendation | recommended.py:58-65 | the input slot holds the genre match; the value returned is the inferred score, or 0 when the computation fails; the output slot holds the returned score after a success and keeps its earlier value after a failure |
| Preprocess.FillRowSpec | recommended.py:10-22 | after filling, no column with a default is missing; missing cells hold their default; present cells and columns without a default are unchanged |
| Preprocess.Default | recommended_gui.py:11-24 | no contract of its own; `Preprocess.FillRowSpec` states that each listed column gets its default, 0 for scores and sales and "" for text, with `Platform` listed only in the GUI |
| Preprocess.FillRow | recommended.py:10-22 | no contract of its own; `Preprocess.FillRowSpec` states what `fillna` does to one row |
| Preprocess.FillAll | recommended.py:10-22 | filling keeps the row count; `Preprocess.FillRowSpec` states each row |
| Preprocess.NumericValue | recommended.py:25 | no contract of its own; `Preprocess.CoerceRow`, `Preprocess.NormalizedUserScore` and `Pipeline.MinUserScoreSeesRescaled` state how `to_numeric(..., errors='coerce').fillna(0)` feeds the user score |
| Preprocess.CoerceRow | recommended.py:25-26 | the user score becomes the parsed number (0 if unparseable or missing) times 10; every other column is unchanged |
| Preprocess.CoerceAll | recommended_gui.py:27 | coercion keeps the row count and leaves a fully numeric user-score column |
| Preprocess.ReplaceZeros | recommended.py:29-30 | row count and numeric column kept; other columns unchanged; non-zero cells unchanged; every zero becomes the mean of the column taken before replacement, zeros included |
| Preprocess.NormalizeCli | recommended.py:10-30 | the command-line normalisation keeps the row count; `Preprocess.NormalizedComplete`, `Preprocess.NormalizedUserScore` and `Preprocess.NormalizedCriticScore` state its values |
| Preprocess.NormalizeGui | recommended_gui.py:11-30 | the GUI normalisation keeps the row count; `Preprocess.NormalizedComplete`, `Preprocess.NormalizedUserScore` and `Preprocess.GuiCriticScoreOnlyFilled` state its values |
| Preprocess.NormalizedComplete | recommended.py:10-30 | after normalisation no column with a default is missing, the user score is a number, and in the command line the critic score is a number |
| Preprocess.CoercedCriticNumeric | recommended.py:10-29 | when raw critic scores are numbers or missing, filling makes the critic-score column numeric |
| Preprocess.NormalizedUserScore | recommended.py:25-30 | the final user score is 10 times the parsed raw value when that is non-zero, and otherwise the mean of the rescaled column |
| Preprocess.NormalizedCriticScore | recommended.py:10-29 | in the command line the final critic score is the raw number (0 if missing) when that is non-zero, and otherwise the mean of the filled column |
| Preprocess.MeanAgrees | recommended.py:29-30 | tables agreeing on a numeric column have the same column sum and mean |
| Preprocess.GuiCriticScoreOnlyFilled | recommended_gui.py:12-30 | the GUI only fills the critic score; it never mean-replaces it |
| Preprocess.ReplaceZerosIdempotent | recommended.py:29-30 | replacing zeros a second time changes nothing |
| Preprocess.ReplaceZerosLeavesNoZero | recommended.py:29-30 | when the column mean is non-zero, no zero remains after replacement |
| Preprocess.CriticExampleNumeric | recommended.py:10-29 | the example table of critic scores missing, 50 and 70 has no string critic score |
| Preprocess.CriticExampleFilled | recommended.py:10-29 | the critic scores missing, 50 and 70 fill to 0, 50 and 70, whose mean is 40 |
| Preprocess.CriticMeanIncludesFilledZeros | recommended.py:10-29 | the critic scores missing, 50 and 70 normalise to 40, 50 and 70 |
| Preprocess.NormalizedCriticNumeric | recommended.py:10-29 | the command-line normalisation leaves no string critic score, so its output can be normalised again |
| Preprocess.NormalizeRescalesAgain | recommended.py:25-30 | normalising twice rescales a non-zero user score twice: a raw value p becomes 10p, then 100p |
| Recommend.GenreMatchCli | recommended.py:53-56 | the command-line genre match is 0 or 1 |
| Recommend.GenreMatchGui | recommended_gui.py:53-54 | the GUI genre match is 0 or 1 |
| Recommend.GenreMatchVariantsAgree | recommended_gui.py:53-54 | the two forms of `get_genre_match` agree on every pair of cells |
| Recommend.GenreMatchMeaning | recommended.py:53-56 | the genre match is 0 or 1, and is 1 exactly when both cells are strings equal after lower-casing |
| Recommend.GenreMatchIgnoresCase | recommended.py:55 | lower-casing either argument, or swapping them, does not change the genre match |
| Recommend.GenreMatchOnUniverse | recommended.py:53-56 | the genre match is a point of the genre universe, so fuzzification evaluates the terms there |
| Recommend.MarkGenre | recommended.py:68 | writing the genre match sets `Genre_Match` to the match of the row's genre with the query and leaves every other column unchanged |
| Recommend.Scored | recommended.py:70 | storing a score sets `Recommendation` to the score of the row's `Genre_Match` and leaves every other column unchanged |
| Recommend.AnnotateRow | recommended.py:68-70 | an annotated row holds the genre match of its game and the score of that match, and no other column changes |
| Recommend.AnnotateAll | recommended.py:68-70 | annotation keeps the row count |
| Recommend.AnnotationVariantsAgree | recommended_gui.py:56-66 | both programs attach the same genre match and score to every row |
| Recommend.AtLeast | recommended_gui.py:69-71 | no contract of its own; `Recommend.ThresholdInclusive` states that the comparison is an inclusive `>=`, and `Pipeline.MinUserScoreSeesRescaled` what the user-score comparison sees |
| Recommend.ContainsIgnoringCase | recommended_gui.py:70-72 | no contract of its own; `Recommend.ContainsIgnoringCaseMeaning` states it holds exactly for a string cell containing the pattern after lower-casing, and `Recommend.EmptyFilterAcceptsAll` that "" accepts every string |
| Recommend.KeptByGenre | recommended.py:72 | no contract of its own; `Recommend.KeptByGenreSpec` states that `df[mask]` keeps exactly the rows meeting the threshold, with their multiplicities, in order |
| Recommend.KeptByFilters | recommended_gui.py:68-73 | no contract of its own; `Recommend.KeptByFiltersSpec` states that `df[mask]` keeps exactly the rows passing all four conditions, with their multiplicities, in order |
| Recommend.ProjectGenre | recommended.py:73 | no contract of its own; `Pipeline.Dataset.RecommendGamesByGenre` and `Recommend.SelectedByGenreMeetThreshold` state the seven returned columns |
| Recommend.ProjectFilter | recommended_gui.py:74 | no contract of its own; `Pipeline.Dataset.RecommendGames` and `Recommend.SelectedByFiltersMeetThreshold` state the six returned columns, without `Global_Sales` |
| Recommend.KeepByGenre | recommended.py:72 | no contract of its own; `Recommend.KeptByGenreSpec`, `Recommend.ThresholdInclusive` and `Recommend.DefaultThresholdKeepsMatches` state the command-line mask |
| Recommend.KeepByFilters | recommended_gui.py:68-73 | no contract of its own; `Recommend.KeptByFiltersSpec`, `Recommend.FiltersNarrow` and `Recommend.EmptyFilterAcceptsAll` state the four-condition GUI mask |
| Recommend.SelectByGenre | recommended.py:72-73 | no contract of its own; `Recommend.SelectedByGenreMeetThreshold`, `Recommend.FiltersNarrow` and `Pipeline.Dataset.RecommendGamesByGenre` state the selection and its seven-column projection |
| Recommend.SelectByFilters | recommended_gui.py:68-74 | no contract of its own; `Recommend.SelectedByFiltersMeetThreshold`, `Recommend.FiltersNarrow` and `Pipeline.Dataset.RecommendGames` state the selection and its six-column projection |
| Recommend.KeptByGenreSpec | recommended.py:72 | the command line keeps exactly the rows scoring at least the threshold, with their multiplicities, in table order |
| Recommend.KeptByFiltersSpec | recommended_gui.py:68-73 | the GUI keeps exactly the rows passing all four conditions, with their multiplicities, in table order |
| Recommend.SelectedByGenreMeetThreshold | recommended.py:72-73 | every returned row shows a score of at least the threshold |
| Recommend.SelectedByFiltersMeetThreshold | recommended_gui.py:68-74 | every returned row shows a score of at least the threshold and a platform containing the requested one |
| Recommend.ThresholdInclusive | recommended.py:72 | a score equal to the threshold is kept |
| Recommend.EmptyFilterAcceptsAll | recommended_gui.py:70-72 | an empty platform or rating filter accepts every string cell, the filled "" included |
| Recommend.ContainsIgnoringCaseMeaning | recommended_gui.py:70-72 | a filter holds exactly when the cell is a string whose lower-cased text contains the lower-cased pattern at some index |
| Recommend.FiltersNarrow | recommended_gui.py:68-74 | the GUI's extra filters keep a subsequence of the threshold-only rows, and never return more rows |
| Recommend.GuiWithinCli | recommended_gui.py:65-73 | for the same table, genre and threshold, the GUI's kept rows are a subsequence of the command line's |
| Recommend.DefaultThresholdKeepsMatches | recommended.py:67-72 | with threshold 5, an annotated row is kept exactly when its genre matches |
| Recommend.DefaultQueryKeepsMatches | recommended.py:67-72 | with threshold 5, an annotated row belongs to the selection exactly when its genre matches |
| Recommend.AnnotatedScoreRange | recommended.py:70 | every attached score is a number in [0, 10] |
| Recommend.ExampleGenreMatches | recommended.py:55 | "RPG" matches "RPG" and "rpg" but not "Action" |
| Recommend.ExampleRowsKept | recommended.py:67-72 | querying "RPG" keeps rows of genre RPG and rpg and drops Action |
| Recommend.ExampleQuery | recommended.py:67-72 | querying "RPG" over RPG, Action and rpg keeps the first and third rows, in order |
| Pipeline.Dataset.constructor | recommended.py:50-51 | the table holds the loaded rows, and the simulation holds the valid two-rule controller with empty slots |
| Pipeline.Dataset.FillMissing | recommended.py:10-22 | filling in place leaves the rows equal to the filled table |
| Pipeline.Dataset.CoerceUserScore | recommended.py:25-26 | coercing in place leaves the rows equal to the coerced table |
| Pipeline.Dataset.ColumnMean | recommended.py:29 | the summing loop returns the mean of the numeric column over every row, zeros included |
| Pipeline.Dataset.ReplaceZerosWithMean | recommended.py:29-30 | replacement in place, with the mean taken once beforehand, leaves the rows equal to the replaced table |
| Pipeline.Dataset.Normalize | recommended.py:10-30 | the in-place start-up steps of either program leave the rows equal to its normalised table |
| Pipeline.Dataset.WriteGenreMatch | recommended.py:68 | every row gets its genre match written, and nothing else changes |
| Pipeline.Dataset.WriteRecommendation | recommended.py:70 | every row gets the shared simulation's score of its stored genre match, and nothing else changes; afterwards the simulation's slots hold the last row's input and, if it computed, its score |
| Pipeline.Dataset.WriteRecommendationAt | recommended.py:70 | one row gets the simulation's score of its stored genre match, no other row changes, and the simulation's slots hold that row's input and, if it computed, its score |
| Pipeline.Dataset.Annotate | recommended.py:68-70 | both passes together leave every row annotated; afterwards the simulation's slots hold the last row's genre match and, if it computed, its score, and an empty table leaves them unchanged |
| Pipeline.Dataset.RecommendGamesByGenre | recommended.py:67-73 | the table is left annotated, the result is the seven-column projection of the rows scoring at least the threshold, and the simulation's slots hold the last row's genre match and, if it computed, its score |
| Pipeline.Dataset.RecommendGames | recommended_gui.py:64-74 | for a table whose `User_Score` cells are all numbers, as start-up leaves them (recommended_gui.py:27), the table is left annotated, the result is the six-column projection of the rows passing all four conditions, and the simulation's slots hold the last row's genre match and, if it computed, its score |
| Pipeline.MinUserScoreSeesRescaled | recommended_gui.py:71 | for a raw user score that parses to a non-zero p, the minimum is compared with 10p, not p |

## Two consequences of the code worth knowing

- **Mean of the critic scores.** The mean is taken after the zero-fill, so a missing critic score beside scores 50 and 70 becomes 40, the mean of {0, 50, 70}, and not 60. `Preprocess.CriticMeanIncludesFilledZeros` proves 40.
- **Normalisation is not idempotent.** `User_Score` is multiplied by 10 on every pass. `Preprocess.NormalizeRescalesAgain` proves that a non-zero raw score p becomes 10p after one pass and 100p after two.

## Left out

- The Qt window, `GameRecommenderApp`, and its result-table loop (recommended_gui.py:76-153) are presentation only.
- The command-line prompt and printing, `get_user_input` and `main` (recommended.py:75-86), are I/O. The genre typed by the user is a parameter.
- Parsing of the GUI's minimum-score field, and its failure on empty input (recommended_gui.py:131), are UI. The minimum score is a `real` parameter.
- `pd.read_csv` (recommended.py:7, recommended_gui.py:8) is I/O. The raw table is a parameter of `Pipeline.Dataset.constructor`: one row of cells per record, where a cell is missing, a string or a number.
- IEEE floating point and NaN propagation are left out. Scores are `real`, and a missing value is the `Missing` cell.
- Recommend.AtLeast: a `Text` cell compares false, whereas pandas raises `TypeError` when `>=` meets a string. `Pipeline.Dataset.RecommendGames` requires a numeric `User_Score` column, which start-up guarantees (recommended_gui.py:27), and the `Recommendation` column is always numeric after annotation, so the model never reaches that case.
- `pd.to_numeric` is modelled for optionally signed decimals: digits, optionally a point and more digits, with at least one digit overall, so ".5" and "5." parse as they do in pandas. Exponents, `inf`/`nan` spellings and surrounding whitespace are left out. Text with a thousands separator such as "1,000" is unparseable in the model, as it is for `to_numeric` with `errors='coerce'`, so both give 0.
- `str.lower` is modelled as ASCII lower-casing, without Unicode case mapping or folding.
- `str.contains` is modelled as literal substring search after ASCII lower-casing. pandas treats the pattern as a regular expression by default, so patterns such as "E10+" can behave differently.
- Inside scikit-fuzzy, crisp inputs are interpolated between universe points. The model evaluates the antecedent terms directly at the input, so its `Fuzzy.Infer` agrees with scikit-fuzzy only at the universe points 0 and 1. Off {0, 1} the two differ: at 0.5, for instance, scikit-fuzzy gives both terms degree 0.5 and computes 5, whereas the model fires no rule. Genre-match values are always 0 or 1, so every input the programs produce is a universe point.
- Fuzzy.FailureScoresZero: describes the `except` fallback of `get_recommendation` (recommended.py:64-65). For the genre-match values 0 and 1 that the programs pass in, `compute()` always succeeds (`Fuzzy.MatchScore`, `Fuzzy.NoMatchScore`), so the programs never take this fallback.
- Fuzzy.Centroid: modelled as the discrete weighted mean over the universe points. scikit-fuzzy integrates piecewise-linearly. So no lemma states an exact score; only bounds from the support of the curve are proved, and they hold for either formula.
- The caching inside `ControlSystemSimulation`, and the exception text `compute()` raises, are left out. The model keeps only whether `compute()` succeeds and what it writes. A failed `compute()` is modelled as leaving the output slot unchanged.
- Preprocess.NormalizeCli: requires that no raw critic score is a string. On a column holding a string, `Series.mean` raises and the command-line program stops at start-up (recommended.py:29); the requires leaves that crash path out of the model. A numeric column read from the CSV satisfies it.
- Pipeline.Dataset.Normalize: for the command line it has the same requires as `Preprocess.NormalizeCli`, and so also leaves out the crash of `Series.mean` on a string critic score (recommended.py:29).
- Preprocess.ReplaceZeros: on an empty table the column mean is undefined (NaN in pandas). The model returns the empty table unchanged, which is what `replace` does when there are no rows.
