# Bank review analytics — a verified model of the pipeline core

The repository collects Google Play reviews of three Ethiopian banking apps
(Commercial Bank of Ethiopia, Bank of Abyssinia, Dashen Bank) and turns
them into cleaned, sentiment-labelled and theme-grouped data, a
`reviews` table keyed by bank id, and a printed report of drivers, pain
points, rankings and recommendations. This project models the logic of
that pipeline in Dafny and proves what each stage guarantees:

- `preprocess.dfy` — `preprocess_reviews`:
  - de-duplication on `review_id`, keeping the first occurrence;
  - dropping rows whose review is missing;
  - filling missing dates with today's date;
  - the all-or-nothing date reformat;
  - the per-bank coverage report (400 reviews for a "YES").
- `sentiment.dfy`:
  - the ±0.1 open-interval label policy of `analyze_sentiment`, with its blank-text short-cut;
  - the labelling loop;
  - the per-(bank, rating) aggregate table, which emits only non-empty slices.
- `themes.dfy`:
  - review cleaning before keyword extraction;
  - first-match bucketing of keywords into six themes, with the capacity-5 fallback and the empty-theme filter;
  - the example picker: at most two excerpts from the first 20 reviews, cut at 80 characters.
- `database.dfy` — the name resolution of `insert_reviews`:
  - the `bank_ids` dict, then the lower-then-strip keyed registry;
  - the strip-lower-strip query key and exact lookup;
  - the truthy-id test;
  - records in row order, and the set of unmatched names.
- `insights.dfy` — `generate_recommendations`:
  - keyword-table detection of drivers and pain points over the joined, lower-cased reviews;
  - the per-bank comparison;
  - the stable descending ranking by mean rating and the top performer;
  - the recommendation table and its 'slow'/'crash' additions, of which only the first two entries per bank are printed;
  - the overall positive share.
- `seqs.dfy`, `text.dfy`, `records.dfy` hold shared definitions:
  - order-preserving filtering, subsequences, and first-appearance de-duplication (`Series.unique`);
  - Python's `lower`, `strip`, `isspace` and substring test;
  - the row types.

Loops of the source are methods with loop invariants. Each is proved equal to a
specification function, and the properties are proved about those functions
as lemmas. Code that is foreign to the repository enters as parameters:

| Foreign code | Parameter |
|---|---|
| TextBlob polarity | a `Scorer` with values in [-1, 1] |
| TF-IDF vectorizer | a `Vectorizer` returning at most `top_n` distinct names |
| `pd.to_datetime(...).strftime(...)` | a partial `DateParser` |
| `round(x, 3)` | `round3` |
| the clock | `today` |
| rows read from the `banks` table | `registry` |

Behaviour worth noting:

- **Dropped keywords.** An unmatched keyword is dropped when all six themes already hold five or more keywords, so every keyword is placed exactly once only when there are at most 30 of them (`Themes.GroupPlacesEachOnce`).
- **Rounding.** `aggregate_by_bank_and_rating` rounds the mean score itself, with `round(avg_score, 3)`.
- **Dates.** A failed date reformat leaves the date column as it was. After cleaning a date is therefore not necessarily in `%Y-%m-%d` form.
- **Ratings.** Ratings are not checked to lie in 1..5. Rows with other ratings are cleaned and kept, but no aggregate row is emitted for them.

Keyword detection in `insights.py` runs over the reviews joined with single
spaces, so a keyword may also be found across the boundary of two reviews.
The model keeps this: `Insights.ReviewHitIsDetected` states the direction
that always holds.

## Model

| member | source | states |
|---|---|---|
| Themes.CleanReview | src/themes.py:11-16 | a missing review becomes ""; otherwise the text keeps its length and each character is lower-cased, or becomes one space when it is neither a word character nor whitespace |
| Themes.CleanReviews | src/themes.py:9-16 | one cleaned string per review, aligned by index with the input |
| Themes.CleanReviewAlphabet | src/themes.py:14-15 | cleaned text holds only lower-case word characters and whitespace |
| Themes.CleanReviewIdempotent | src/themes.py:14-15 | cleaning already cleaned text changes nothing |
| Themes.ExtractKeywords | src/themes.py:6-28 | the keywords are the vectorizer's feature names for the cleaned reviews: at most `top_n` of them, all distinct |
| Themes.MatchedThemeIsFirst | src/themes.py:51-65 | a keyword's theme is the first, in declaration order, whose signal list has a word occurring in the lower-cased keyword, and no earlier list has one |
| Themes.FirstUnderCapacity | src/themes.py:66-70 | the fallback theme holds fewer than 5 keywords and every earlier theme holds at least 5 |
| Themes.PlaceKeyword | src/themes.py:52-70 | one pass of the keyword loop (six signal checks in theme order, then the capacity search with its `break`) has the effect of one placement, which `PlaceCases` characterises |
| Themes.GroupIntoThemes | src/themes.py:31-78 | the loop, including its inner fallback loop with `break`, yields exactly the non-empty themes of the keyword-by-keyword placement |
| Themes.PlaceCases | src/themes.py:51-70 | each keyword is appended to exactly one theme (its matched theme, otherwise the first under capacity), or dropped only when all six are at capacity |
| Themes.GroupKeepsOrder | src/themes.py:51-70 | every theme lists its keywords in input order |
| Themes.MatchedKeywordsAllPlaced | src/themes.py:54-65 | the keywords of a theme that match its signals are exactly the input keywords matching it, in order, with no capacity limit |
| Themes.ThemeMembers | src/themes.py:54-70 | a theme holds only keywords that match it or match no theme |
| Themes.FallbackWithinCapacity | src/themes.py:66-70 | no theme takes more than 5 unmatched keywords |
| Themes.PlaceMultiset | src/themes.py:51-70 | one placement adds exactly that keyword to the themes' contents, or drops it when the themes already hold at least 30 keywords |
| Themes.GroupPlacesEachOnce | src/themes.py:51-70 | no keyword is placed more often than it occurs; with at most 30 keywords each is placed exactly once |
| Themes.NonEmptyThemesExact | src/themes.py:72 | the result holds exactly the non-empty themes, in declaration order, each with its full list |
| Themes.Shorten | src/themes.py:100-101 | text up to 80 characters is unchanged; longer text becomes its first 80 characters followed by "..." |
| Themes.ShortenBounds | src/themes.py:100-101 | an excerpt has at most 83 characters and starts with the text it was cut from |
| Themes.FirstTwoExcerpts | src/themes.py:97-104 | for any hit test, the scan with its `break` after two yields the shortened texts of the first two hits, in review order |
| Themes.PickExamples | src/themes.py:97-105 | the example loop, with its `break` after two, yields the shortened texts of the first two of the first 20 reviews that mention one of the theme's first three keywords |
| Themes.ExamplesSound | src/themes.py:96-105 | at most two examples; each is a shortened review among the first 20 that mentions one of the first three keywords; they come in review order |
| Themes.ExamplesComplete | src/themes.py:98-104 | with fewer than two examples, every mentioning review among the first 20 is represented |
| Themes.CollectExamples | src/themes.py:95-105 | one example list per theme, in theme order |
| Themes.AnalyzeBank | src/themes.py:89-110 | a bank's entry is the grouping of its extracted keywords with the examples of each theme |
| Themes.UniqueBanks | src/themes.py:88 | `df['bank'].unique()` lists exactly the banks occurring in the data |
| Themes.AnalyzeThemesByBank | src/themes.py:81-114 | the result has one entry per bank, in `unique()` order, so exactly the banks in the data; each holds that bank's analysis |
| Sentiment.AnalyzeSentiment | src/sentiment.py:5-17 | missing or blank text gives (neutral, 0.0); otherwise the score is the scorer's polarity unchanged; the label is the threshold classification of the score; the score lies in [-1, 1] |
| Sentiment.ClassifyThresholds | src/sentiment.py:12-17 | positive exactly above 0.1, negative exactly below -0.1, neutral otherwise, including 0.1 and -0.1 themselves |
| Sentiment.ClassifyMonotone | src/sentiment.py:12-17 | a higher polarity never gives a lower label |
| Sentiment.BlankIgnoresScorer | src/sentiment.py:6-7 | blank or missing text never consults the scorer: any two scorers agree, on (neutral, 0.0) |
| Sentiment.WhitespaceIsNeutral | src/sentiment.py:6-7 | text made only of whitespace, of any kind, is (neutral, 0.0) |
| Sentiment.PerformSentimentAnalysis | src/sentiment.py:20-35 | exactly one label and one score per row, aligned by index, rows otherwise unchanged |
| Sentiment.TallyOf | src/sentiment.py:57-67 | the three label counts of a slice add up to its size |
| Sentiment.TallyCountsLabels | src/sentiment.py:57-66 | each tallied count is the number of the slice's reviews with that label |
| Sentiment.AppendBankBlock | src/sentiment.py:51-68 | the rating loop appends one bank's rows for ratings 1 to 5, skipping empty slices |
| Sentiment.AggregateByBankAndRating | src/sentiment.py:44-73 | the nested loops build the table bank block by bank block, in `unique()` order |
| Sentiment.RatingRowsAscending | src/sentiment.py:51 | within one bank's block the ratings strictly increase |
| Sentiment.AggregateRowsConsistent | src/sentiment.py:55-68 | each row is for a bank of the data and a rating in 1..5; it summarises a non-empty slice with the rounded mean score and the label counts; and the counts add up to `total_reviews` |
| Sentiment.AggregateEmitsNonEmptySlices | src/sentiment.py:50-55 | a (bank, rating) pair with rating in 1..5 has a row exactly when some review has that bank and rating |
| Sentiment.BankTotalsConserved | src/sentiment.py:51-67 | a bank's `total_reviews` sum to the number of its reviews rated 1 to 5 |
| Sentiment.AggregateOrdered | src/sentiment.py:50-51 | rows are ordered by first appearance of their bank, then by ascending rating |
| Preprocess.DropDuplicatesIsSubseq | src/preprocess.py:12 | de-duplication keeps the relative order of the rows it keeps |
| Preprocess.DropDuplicatesSameIds | src/preprocess.py:12 | every id of the input survives, and no id is invented |
| Preprocess.DropDuplicatesDistinct | src/preprocess.py:12 | after de-duplication the ids are unique |
| Preprocess.DropDuplicatesKeepsFirst | src/preprocess.py:12 | the first row carrying an id is kept |
| Preprocess.DropDuplicatesOnlyFirsts | src/preprocess.py:12 | every kept row is the first occurrence of its id |
| Preprocess.DuplicateCount | src/preprocess.py:11-13 | the printed count, input length minus kept length, is the number of rows that repeat an earlier id |
| Preprocess.DropMissingSpec | src/preprocess.py:15-21 | exactly the rows with a missing review go (an empty review is kept); order is kept; the number of rows removed is the number of missing reviews |
| Preprocess.FillDates | src/preprocess.py:18 | missing dates become today's date; present dates and all other fields are untouched |
| Preprocess.ReformatDates | src/preprocess.py:23-26 | if every date parses, every date is replaced by its reformatted text; otherwise the column is unchanged and the warning flag is set |
| Preprocess.AbsentBankCountsZero | src/preprocess.py:31-33 | a bank with no rows counts 0 |
| Preprocess.ReportCoverage | src/preprocess.py:31-35 | one line per target bank, in order, with its row count, "YES" exactly when the count is at least 400 |
| Preprocess.PreprocessReviews | src/preprocess.py:6-37 | the stage's rows, duplicate count, missing count, date warning and coverage report, as the functions and lemmas above describe |
| Preprocess.CleanedIsSubseq | src/preprocess.py:12-26 | no row is created: with dates set aside, the cleaned rows are a subsequence of the input |
| Database.Assign | src/database.py:96 | dict assignment appends a new key and keeps an existing key's place |
| Database.DictKeysInFirstOrder | src/database.py:96 | the `bank_ids` keys are the registry names in order of first appearance |
| Database.DictHoldsLastValue | src/database.py:96 | each `bank_ids` key holds the id of the last registry row with that name |
| Database.NormalizeRegistry | src/database.py:99-102 | the loop re-keys `bank_ids` by lower-then-strip, in dict order |
| Database.LaterNameWins | src/database.py:99-102 | when two registry names normalise alike, the one later in the dict wins |
| Database.QueryKeyIsNormalize | src/database.py:108-109 | strip-lower-strip of a query name equals lower-strip, the registry's normalisation |
| Database.LookupIgnoresCaseAndSpace | src/database.py:108-111 | names equal up to case and surrounding whitespace resolve to the same id |
| Database.LookupExact | src/database.py:111 | a name resolves exactly when its normalised form equals a normalised registry name; there is no fuzzy matching |
| Database.DashenSpellings | src/database.py:108-111 | " Dashen Bank ", "dashen bank" and "DASHEN BANK" resolve to the same id |
| Database.PaddingAndCaseIgnored | src/database.py:108-111 | one space on each side, or lower-casing, does not change what a name resolves to |
| Database.DictOrderDecides | src/database.py:96-102 | with registry rows ("A", 1), ("a", 2), ("A", 3) the name "a" resolves to 2, because the dict keeps the first position of "A" with its last id |
| Database.RecordsOf | src/database.py:113-123 | there are as many records as matched rows |
| Database.InsertReviews | src/database.py:94-142 | the loop's records and unmatched names are those of the specification; the warning fires exactly when some name is unmatched; the insert runs exactly when there are records; the returned count is the number of records |
| Database.RecordsSound | src/database.py:113-123 | every record comes from a row whose name resolved to a non-zero id and carries that row's fields, label 'unknown', score 0.0 and source 'Google Play' |
| Database.RecordsComplete | src/database.py:113-123 | every matched row yields its record |
| Database.RecordsInRowOrder | src/database.py:107-123 | records follow the row order: the records of a prefix of the rows are a prefix of all the records |
| Database.UnmatchedExact | src/database.py:124-125 | a name is in the unmatched set exactly when some unmatched row's stripped, case-preserved name is that name |
| Database.RowsAccounted | src/database.py:107-125 | records plus unmatched rows account for every row |
| Insights.DetectLabels | src/insights.py:130-132 | the detection loop yields the table's labels with a keyword occurring in the text, in table order |
| Insights.DetectedExact | src/insights.py:116-132 | a label is detected exactly when one of its keywords occurs in the text |
| Insights.DetectedInTableOrder | src/insights.py:130-132 | detected labels keep the table's order |
| Insights.ReviewHitIsDetected | src/insights.py:117-132 | a keyword in one review's lower-cased text gets its label detected in the joined text |
| Insights.Shown | src/insights.py:134-136 | the printed labels are a prefix of the detected ones, of length two, or all of them when fewer are detected |
| Insights.AnalyzeBankText | src/insights.py:109-159 | one bank's findings: the drivers of its positive and the pain points of its negative reviews, and the part of each that is printed |
| Insights.ShownFindings | src/insights.py:134-159 | a printed list exists exactly when its section runs; it is the first two detected labels, or all when fewer; each printed label has a keyword in the bank's positive (drivers) or negative (pain points) text |
| Insights.FindDriversAndPainPoints | src/insights.py:108-159 | one set of findings per bank, in `unique()` order |
| Insights.DriversMeaning | src/insights.py:116-132 | the driver section appears exactly when the bank has a positive review, and then lists exactly the labels with a keyword in its joined positive text |
| Insights.PainPointsMeaning | src/insights.py:139-155 | the pain-point section appears exactly when the bank has a negative review, and then lists exactly the labels with a keyword in its joined negative text |
| Insights.BankHasRows | src/insights.py:166-171 | every bank of `unique()` has rows, so the divisions by `len(bank_df)` are defined |
| Insights.BuildComparison | src/insights.py:165-171 | the loop builds one statistics entry per bank, in `unique()` order |
| Insights.ComparisonEntry | src/insights.py:166-171 | review_count is the bank's number of rows and is positive; mean rating × count = rating sum; positive_pct × count = 100 × positives; positive_pct lies in [0, 100] |
| Insights.MeanRatingBounds | src/insights.py:168 | with 1-5 star ratings a bank's mean rating lies in [1, 5] |
| Insights.SortPermutes | src/insights.py:175-176 | the ranking holds exactly the banks of the comparison |
| Insights.SortDescending | src/insights.py:175-176 | the ranking is in descending order of mean rating |
| Insights.SortStable | src/insights.py:175-176 | banks with equal mean rating keep their comparison order (stable sort) |
| Insights.TopIsFirstBest | src/insights.py:175-179 | the top performer is a bank with the highest mean rating, and the first such bank in comparison order |
| Insights.AdjustRecommendations | src/insights.py:205-215 | the loop applies the 'slow' and 'crash' additions bank by bank to the table |
| Insights.AdviseBank | src/insights.py:210-215 | the 'slow' check and then the 'crash' check for one bank have the effect of one adjustment, which `AdjustEffect` characterises |
| Insights.AdjustEffect | src/insights.py:210-215 | one bank's adjustment never adds or removes a bank and touches only that bank's list, appending the triggered advice |
| Insights.RecommendationsExact | src/insights.py:189-215 | the final table has the same banks; each keeps its base entries, followed by the advice its own negative reviews trigger when the bank appears in the data |
| Insights.BaseShape | src/insights.py:189-202 | the base table covers the three banks with two entries each |
| Insights.ShownFor | src/insights.py:217-221 | the printed banks are exactly the table's banks found in the data, in table order, each with the first two entries of its list |
| Insights.ShowRecommendations | src/insights.py:217-221 | the loop over the final table prints what `ShownFor` specifies |
| Insights.ShownAreBase | src/insights.py:217-221 | the printed banks are the table's banks found in the data, and each shows exactly its two base entries, so appended advice is never printed |
| Insights.OverallPositivePctMeaning | src/insights.py:253-255 | the overall positive share is a percentage; it is 0 exactly when no review is positive, and 100 exactly when all are |
| Insights.GenerateRecommendations | src/insights.py:97-221 | the report is the specified one: findings with their printed labels, comparison, ranking, top performer, the recommendations printed from the adjusted table, and overall share; none for empty data |
| Insights.ReportMeaning | src/insights.py:165-179 | a report exists exactly for non-empty data; its ranking is the comparison, sorted descending; its top performer is the first bank with the highest mean rating |

## Left out

- `src/scraper.py` is not part of this model. It is network access to the Play store, retries and sleeping.
- Database I/O is not modelled: the connection, `CREATE DATABASE`/`CREATE TABLE`, `execute_values`, `ON CONFLICT DO NOTHING` and `verify_data`. The registry rows come in as a parameter, and the records and the insert decision go out as the result. The returned count is the number of records built, as in the source, not the number the database accepted.
- `create_visualizations`, `load_data` and `compare_banks` in `src/insights.py` are not modelled. They are plotting, file reading and a pandas group-by.
- Printing is not modelled. This covers:
  - progress and diagnostic lines;
  - the themes and ethics paragraphs of `generate_recommendations`;
  - its constant return dict.

  Printed quantities that the code computes are results of the model.
- The TF-IDF vectorizer is a parameter. Only its cap of `top_n` and distinct names is known. Salience order, the stop-word list, lower-cased output and the library's error on an empty vocabulary are not modelled.
- TextBlob polarity is a parameter with values in [-1, 1].
- `round(x, 3)` is a parameter.
- `pd.to_datetime` with `strftime` is a partial parser parameter. Reformatting is all-or-nothing over the column.
- The clock is the `today` parameter, already in `%Y-%m-%d` form.
- Floating point: means and percentages are exact reals.
- Character handling is only partly Unicode-aware:
  - `str.lower()` and the regex class `\w` are modelled on ASCII only;
  - `str.isspace()` is modelled over Python's whitespace code points.
- DataFrame updates in place (`df['date'] = ...` and the new sentiment columns) are modelled as new row values; aliasing of frames is not modelled.
- `review_id`, `bank` and `rating` are never missing in the model. NaN in those columns, and `int(row['rating'])` on a non-integer, are not modelled.
- `Themes.ExtractKeywords` does not claim any order of the keywords. The vectorizer returns feature names as it chooses.
