/** Sentiment labelling of reviews and the per-(bank, rating) aggregate
    table (src/sentiment.py). The lexicon scorer is a parameter: only its
    range, [-1, 1], is known. */
module Sentiment {
  import opened Records
  import opened Text
  import opened Seqs

  /** A polarity scorer (TextBlob's `sentiment.polarity`). */
  type Scorer = f: string -> real | forall s :: -1.0 <= f(s) <= 1.0
    witness (s: string) => 0.0

  /** The label policy: open interval thresholds at plus and minus 0.1. */
  function Classify(polarity: real): Label
  {
    if polarity > 0.1 then Positive
    else if polarity < -0.1 then Negative
    else Neutral
  }

  /** `pd.isna(text) or str(text).strip() == ""` */
  predicate IsMissingOrBlank(text: Option<string>)
  {
    text.None? || IsBlank(text.value)
  }

  /** `analyze_sentiment`: label and score of one review text. */
  function AnalyzeSentiment(text: Option<string>, polarity: Scorer): (r: (Label, real))
    ensures IsMissingOrBlank(text) ==> r == (Neutral, 0.0)
    ensures !IsMissingOrBlank(text) ==> r.1 == polarity(text.value)
    ensures r.0 == Classify(r.1)
    ensures -1.0 <= r.1 <= 1.0
  {
    if IsMissingOrBlank(text) then (Neutral, 0.0)
    else
      var p := polarity(text.value);
      if p > 0.1 then (Positive, p)
      else if p < -0.1 then (Negative, p)
      else (Neutral, p)
  }

  /** The thresholds are strict: exactly 0.1 and -0.1 are neutral. */
  lemma ClassifyThresholds(p: real)
    ensures Classify(p) == Positive <==> p > 0.1
    ensures Classify(p) == Negative <==> p < -0.1
    ensures Classify(p) == Neutral <==> -0.1 <= p <= 0.1
    ensures Classify(0.1) == Neutral && Classify(-0.1) == Neutral
  {
  }

  function Rank(l: Label): int
  {
    match l
    case Negative => -1
    case Neutral => 0
    case Positive => 1
  }

  /** A higher polarity never gives a lower label. */
  lemma ClassifyMonotone(p: real, q: real)
    requires p <= q
    ensures Rank(Classify(p)) <= Rank(Classify(q))
  {
  }

  /** A missing or blank text never consults the scorer: any two scorers
      give the same answer. */
  lemma BlankIgnoresScorer(text: Option<string>, f: Scorer, g: Scorer)
    requires IsMissingOrBlank(text)
    ensures AnalyzeSentiment(text, f) == AnalyzeSentiment(text, g) == (Neutral, 0.0)
  {
  }

  /** Whitespace-only text is blank, whatever whitespace it uses. */
  lemma WhitespaceIsNeutral(text: string, polarity: Scorer)
    requires forall i :: 0 <= i < |text| ==> IsSpace(text[i])
    ensures AnalyzeSentiment(Some(text), polarity) == (Neutral, 0.0)
  {
    BlankIffAllSpace(text);
  }

  /** `perform_sentiment_analysis`: one label and one score per review,
      aligned by index, attached as two new columns. */
  method PerformSentimentAnalysis(rows: seq<Review>, polarity: Scorer)
    returns (annotated: seq<AnnotatedReview>)
    ensures |annotated| == |rows|
    ensures forall k :: 0 <= k < |rows| ==>
      annotated[k].row == rows[k] &&
      (annotated[k].sentimentLabel, annotated[k].sentimentScore) == AnalyzeSentiment(rows[k].review, polarity)
  {
    var sentiments: seq<Label> := [];
    var scores: seq<real> := [];
    var i := 0;
    while i < |rows|
      invariant 0 <= i <= |rows|
      invariant |sentiments| == i && |scores| == i
      invariant forall k :: 0 <= k < i ==>
        (sentiments[k], scores[k]) == AnalyzeSentiment(rows[k].review, polarity)
    {
      var (sentiment, score) := AnalyzeSentiment(rows[i].review, polarity);
      sentiments := sentiments + [sentiment];
      scores := scores + [score];
      i := i + 1;
    }
    annotated := seq(|rows|, k requires 0 <= k < |rows| => AnnotatedReview(rows[k], sentiments[k], scores[k]));
  }

  // ---------------------------------------------------------------------
  // Aggregation by bank and star rating

  datatype AggregateRow = AggregateRow(
    bank: string,
    rating: int,
    avgSentimentScore: real,
    positiveCount: nat,
    neutralCount: nat,
    negativeCount: nat,
    totalReviews: nat)

  /** `df['bank']` */
  function BankColumn(rows: seq<AnnotatedReview>): (r: seq<string>)
    ensures |r| == |rows|
    ensures forall k :: 0 <= k < |rows| ==> r[k] == rows[k].row.bank
  {
    seq(|rows|, k requires 0 <= k < |rows| => rows[k].row.bank)
  }

  /** The mask `(df['bank'] == bank) & (df['rating'] == rating)`. */
  function InSlice(bank: string, rating: int): AnnotatedReview -> bool
  {
    (r: AnnotatedReview) => r.row.bank == bank && r.row.rating == rating
  }

  function Slice(rows: seq<AnnotatedReview>, bank: string, rating: int): seq<AnnotatedReview>
  {
    Filter(InSlice(bank, rating), rows)
  }

  function HasLabel(l: Label): AnnotatedReview -> bool
  {
    (r: AnnotatedReview) => r.sentimentLabel == l
  }

  /** The column sums one aggregate row needs: the summed score and the
      number of reviews carrying each label. */
  datatype Tally = Tally(scoreSum: real, positive: nat, neutral: nat, negative: nat)

  function TallyOf(s: seq<AnnotatedReview>): (t: Tally)
    ensures t.positive + t.neutral + t.negative == |s|
    decreases |s|
  {
    if s == [] then Tally(0.0, 0, 0, 0)
    else
      var t := TallyOf(s[..|s| - 1]);
      var r := s[|s| - 1];
      Tally(t.scoreSum + r.sentimentScore,
        t.positive + (if r.sentimentLabel == Positive then 1 else 0),
        t.neutral + (if r.sentimentLabel == Neutral then 1 else 0),
        t.negative + (if r.sentimentLabel == Negative then 1 else 0))
  }

  /** The tallied counts are the label masks summed:
      `(slice['sentiment_label'] == l).sum()`. */
  lemma {:induction false} TallyCountsLabels(s: seq<AnnotatedReview>)
    ensures TallyOf(s).positive == Count(HasLabel(Positive), s)
    ensures TallyOf(s).neutral == Count(HasLabel(Neutral), s)
    ensures TallyOf(s).negative == Count(HasLabel(Negative), s)
    decreases |s|
  {
    if s != [] {
      TallyCountsLabels(s[..|s| - 1]);
    }
  }

  /** The row emitted for a non-empty slice: mean score rounded by
      `round3` (Python's `round(x, 3)`) and the three label counts. */
  function MakeRow(slice: seq<AnnotatedReview>, bank: string, rating: int, round3: real -> real): AggregateRow
    requires |slice| > 0
  {
    var t := TallyOf(slice);
    AggregateRow(bank, rating, round3(t.scoreSum / (|slice| as real)),
      t.positive, t.neutral, t.negative, |slice|)
  }

  /** The rows emitted for one bank and ratings 1 to `n`. */
  function RatingRows(rows: seq<AnnotatedReview>, bank: string, n: nat, round3: real -> real): seq<AggregateRow>
  {
    if n == 0 then []
    else
      var slice := Slice(rows, bank, n);
      RatingRows(rows, bank, n - 1, round3) +
      (if |slice| > 0 then [MakeRow(slice, bank, n, round3)] else [])
  }

  lemma RatingRowsSnoc(rows: seq<AnnotatedReview>, bank: string, n: nat, round3: real -> real)
    requires n > 0
    ensures RatingRows(rows, bank, n, round3) == RatingRows(rows, bank, n - 1, round3) +
      (if |Slice(rows, bank, n)| > 0 then [MakeRow(Slice(rows, bank, n), bank, n, round3)] else [])
  {
  }

  /** The rows emitted for the banks `banks`, bank by bank. */
  function AggregateOver(rows: seq<AnnotatedReview>, banks: seq<string>, round3: real -> real): seq<AggregateRow>
    decreases |banks|
  {
    if banks == [] then []
    else AggregateOver(rows, banks[..|banks| - 1], round3) + RatingRows(rows, banks[|banks| - 1], 5, round3)
  }

  /** The table `aggregate_by_bank_and_rating` builds. */
  function Aggregated(rows: seq<AnnotatedReview>, round3: real -> real): seq<AggregateRow>
  {
    AggregateOver(rows, Unique(BankColumn(rows)), round3)
  }

  /** The inner loop of `aggregate_by_bank_and_rating`: ratings 1 to 5 of
      one bank, a row appended only for a non-empty slice. */
  method AppendBankBlock(rows: seq<AnnotatedReview>, bank: string, round3: real -> real, acc: seq<AggregateRow>)
    returns (results: seq<AggregateRow>)
    ensures results == acc + RatingRows(rows, bank, 5, round3)
  {
    results := acc;
    for rating := 1 to 6
      invariant results == acc + RatingRows(rows, bank, rating - 1, round3)
    {
      var slice := Slice(rows, bank, rating);
      RatingRowsSnoc(rows, bank, rating, round3);
      if |slice| > 0 {
        results := results + [MakeRow(slice, bank, rating, round3)];
      }
    }
  }

  /** `aggregate_by_bank_and_rating`: banks in first-appearance order,
      ratings 1 to 5 within each, a row only for a non-empty slice. */
  method AggregateByBankAndRating(rows: seq<AnnotatedReview>, round3: real -> real)
    returns (results: seq<AggregateRow>)
    ensures results == Aggregated(rows, round3)
  {
    var banks := Unique(BankColumn(rows));
    results := [];
    var b := 0;
    while b < |banks|
      invariant 0 <= b <= |banks|
      invariant results == AggregateOver(rows, banks[..b], round3)
    {
      results := AppendBankBlock(rows, banks[b], round3, results);
      b := b + 1;
      AggregateOverSnoc(rows, banks, b, round3);
    }
    assert banks[..|banks|] == banks;
  }

  // ---------------------------------------------------------------------
  // Properties of the aggregate table

  /** Every row of `RatingRows` is for `bank` and a rating in 1..n, and
      sums up that non-empty slice. */
  lemma {:induction false} RatingRowsShape(rows: seq<AnnotatedReview>, bank: string, n: nat, round3: real -> real)
    ensures forall x :: x in RatingRows(rows, bank, n, round3) ==>
      x.bank == bank && 1 <= x.rating <= n && |Slice(rows, bank, x.rating)| > 0 &&
      x == MakeRow(Slice(rows, bank, x.rating), bank, x.rating, round3)
    decreases n
  {
    if n > 0 {
      RatingRowsShape(rows, bank, n - 1, round3);
      var prev := RatingRows(rows, bank, n - 1, round3);
      var slice := Slice(rows, bank, n);
      var extra: seq<AggregateRow> := if |slice| > 0 then [MakeRow(slice, bank, n, round3)] else [];
      RatingRowsSnoc(rows, bank, n, round3);
      forall x: AggregateRow | x in prev + extra
        ensures x.bank == bank && 1 <= x.rating <= n && |Slice(rows, bank, x.rating)| > 0 &&
                x == MakeRow(Slice(rows, bank, x.rating), bank, x.rating, round3)
      {
        if x in extra {
          assert x == MakeRow(slice, bank, n, round3);
        }
      }
    }
  }

  /** Every row of `RatingRows` is for `bank` and a rating in 1..n. */
  lemma {:induction false} RatingRowsBounds(rows: seq<AnnotatedReview>, bank: string, n: nat, round3: real -> real)
    ensures forall x :: x in RatingRows(rows, bank, n, round3) ==> x.bank == bank && 1 <= x.rating <= n
    decreases n
  {
    if n > 0 {
      RatingRowsBounds(rows, bank, n - 1, round3);
      RatingRowsSnoc(rows, bank, n, round3);
    }
  }

  /** Within one bank's block the ratings strictly increase. */
  lemma {:induction false} RatingRowsAscending(rows: seq<AnnotatedReview>, bank: string, n: nat, round3: real -> real)
    ensures forall i, j :: 0 <= i < j < |RatingRows(rows, bank, n, round3)| ==>
      RatingRows(rows, bank, n, round3)[i].rating < RatingRows(rows, bank, n, round3)[j].rating
    decreases n
  {
    if n > 0 {
      RatingRowsAscending(rows, bank, n - 1, round3);
      RatingRowsBounds(rows, bank, n - 1, round3);
      var prev := RatingRows(rows, bank, n - 1, round3);
      var slice := Slice(rows, bank, n);
      var extra: seq<AggregateRow> := if |slice| > 0 then [MakeRow(slice, bank, n, round3)] else [];
      var t := prev + extra;
      RatingRowsSnoc(rows, bank, n, round3);
      forall i: int, j: int | 0 <= i < j < |t|
        ensures t[i].rating < t[j].rating
      {
        assert t[i] == prev[i] && prev[i] in prev;
        if j >= |prev| {
          assert t[j].rating == n;
        } else {
          assert t[j] == prev[j];
        }
      }
    }
  }

  /** The table built for a prefix of the bank list grows by one bank's
      block. */
  lemma AggregateOverSnoc(rows: seq<AnnotatedReview>, banks: seq<string>, k: int, round3: real -> real)
    requires 0 < k <= |banks|
    ensures AggregateOver(rows, banks[..k], round3) ==
      AggregateOver(rows, banks[..k - 1], round3) + RatingRows(rows, banks[k - 1], 5, round3)
  {
    assert banks[..k][..k - 1] == banks[..k - 1];
  }

  /** Every aggregate row summarises a non-empty (bank, rating) slice
      with rating in 1..5, and its label counts add up to its total. */
  lemma {:induction false} AggregateRowsConsistent(rows: seq<AnnotatedReview>, banks: seq<string>, round3: real -> real)
    ensures forall x :: x in AggregateOver(rows, banks, round3) ==>
      x.bank in banks && 1 <= x.rating <= 5 && x.totalReviews > 0 &&
      x.positiveCount + x.neutralCount + x.negativeCount == x.totalReviews &&
      |Slice(rows, x.bank, x.rating)| > 0 &&
      x == MakeRow(Slice(rows, x.bank, x.rating), x.bank, x.rating, round3)
    decreases |banks|
  {
    if banks != [] {
      var init := banks[..|banks| - 1];
      var last := banks[|banks| - 1];
      AggregateRowsConsistent(rows, init, round3);
      RatingRowsShape(rows, last, 5, round3);
    }
  }

  /** A rating in 1..n has a row in `RatingRows` exactly when its slice is
      non-empty. */
  lemma {:induction false} RatingRowsEmitted(rows: seq<AnnotatedReview>, bank: string, n: nat, r: int, round3: real -> real)
    requires 1 <= r <= n
    ensures (exists x :: x in RatingRows(rows, bank, n, round3) && x.rating == r) <==> |Slice(rows, bank, r)| > 0
    decreases n
  {
    RatingRowsShape(rows, bank, n, round3);
    if |Slice(rows, bank, r)| > 0 {
      var x := RatingRowHas(rows, bank, n, r, round3);
    }
  }

  /** A non-empty slice for a rating in 1..n has its row in `RatingRows`. */
  lemma {:induction false} RatingRowHas(rows: seq<AnnotatedReview>, bank: string, n: nat, r: int, round3: real -> real)
    returns (x: AggregateRow)
    requires 1 <= r <= n && |Slice(rows, bank, r)| > 0
    ensures x in RatingRows(rows, bank, n, round3) && x.rating == r
    decreases n
  {
    var prev := RatingRows(rows, bank, n - 1, round3);
    RatingRowsSnoc(rows, bank, n, round3);
    if r < n {
      x := RatingRowHas(rows, bank, n - 1, r, round3);
      assert x in prev;
    } else {
      x := MakeRow(Slice(rows, bank, r), bank, r, round3);
      assert RatingRows(rows, bank, n, round3) == prev + [x];
    }
  }

  /** A (bank, rating) pair with rating in 1..5 gets a row exactly when at
      least one review has that bank and rating: no zero-filled rows. */
  lemma AggregateEmitsNonEmptySlices(rows: seq<AnnotatedReview>, bank: string, r: int, round3: real -> real)
    requires 1 <= r <= 5
    ensures (exists x :: x in Aggregated(rows, round3) && x.bank == bank && x.rating == r)
        <==> (exists k :: 0 <= k < |rows| && rows[k].row.bank == bank && rows[k].row.rating == r)
  {
    var banks := Unique(BankColumn(rows));
    var agg := Aggregated(rows, round3);
    AggregateRowsConsistent(rows, banks, round3);
    if exists k :: 0 <= k < |rows| && rows[k].row.bank == bank && rows[k].row.rating == r {
      var k :| 0 <= k < |rows| && rows[k].row.bank == bank && rows[k].row.rating == r;
      FilterComplete(InSlice(bank, r), rows, k);
      assert BankColumn(rows)[k] == bank;
      var b := IndexOf(banks, bank);
      BlockInAggregate(rows, banks, b, round3);
      RatingRowsEmitted(rows, bank, 5, r, round3);
      RatingRowsShape(rows, bank, 5, round3);
      var x :| x in RatingRows(rows, bank, 5, round3) && x.rating == r;
      assert x in agg && x.bank == bank;
    }
    if exists x :: x in agg && x.bank == bank && x.rating == r {
      var x :| x in agg && x.bank == bank && x.rating == r;
      var s := Slice(rows, bank, r);
      FilterSound(InSlice(bank, r), rows);
      assert s[0] in rows && InSlice(bank, r)(s[0]);
      var k :| 0 <= k < |rows| && rows[k] == s[0];
    }
  }

  /** Every row of bank `banks[b]`'s block is in the table. */
  lemma {:induction false} BlockInAggregate(rows: seq<AnnotatedReview>, banks: seq<string>, b: int, round3: real -> real)
    requires 0 <= b < |banks|
    ensures forall x :: x in RatingRows(rows, banks[b], 5, round3) ==> x in AggregateOver(rows, banks, round3)
    decreases |banks|
  {
    if b < |banks| - 1 {
      BlockInAggregate(rows, banks[..|banks| - 1], b, round3);
    }
  }

  // Conservation: a bank's rows add up to its reviews rated 1..5.

  /** Reviews of `bank` with a rating in 1..n. */
  function InRatedRange(bank: string, n: int): AnnotatedReview -> bool
  {
    (r: AnnotatedReview) => r.row.bank == bank && 1 <= r.row.rating <= n
  }

  lemma {:induction false} RatedRangeStep(rows: seq<AnnotatedReview>, bank: string, n: int)
    requires n >= 1
    ensures Count(InRatedRange(bank, n), rows) == Count(InRatedRange(bank, n - 1), rows) + |Slice(rows, bank, n)|
    decreases |rows|
  {
    if rows != [] {
      RatedRangeStep(rows[..|rows| - 1], bank, n);
    }
  }

  lemma {:induction false} RatedRangeEmpty(rows: seq<AnnotatedReview>, bank: string)
    ensures Count(InRatedRange(bank, 0), rows) == 0
    decreases |rows|
  {
    if rows != [] {
      RatedRangeEmpty(rows[..|rows| - 1], bank);
    }
  }

  function SumTotals(t: seq<AggregateRow>): nat
    decreases |t|
  {
    if t == [] then 0 else SumTotals(t[..|t| - 1]) + t[|t| - 1].totalReviews
  }

  lemma {:induction false} SumTotalsAppend(a: seq<AggregateRow>, b: seq<AggregateRow>)
    ensures SumTotals(a + b) == SumTotals(a) + SumTotals(b)
    decreases |b|
  {
    if b == [] {
      assert a + b == a;
    } else {
      SumTotalsAppend(a, b[..|b| - 1]);
      assert (a + b)[..|a + b| - 1] == a + b[..|b| - 1];
    }
  }

  lemma {:induction false} RatingRowsTotal(rows: seq<AnnotatedReview>, bank: string, n: nat, round3: real -> real)
    ensures SumTotals(RatingRows(rows, bank, n, round3)) == Count(InRatedRange(bank, n), rows)
    decreases n
  {
    if n == 0 {
      RatedRangeEmpty(rows, bank);
    } else {
      RatingRowsTotal(rows, bank, n - 1, round3);
      RatedRangeStep(rows, bank, n);
      RatingRowsTotalStep(rows, bank, n, round3);
    }
  }

  /** Rating `n` adds the size of its slice to the block's total. */
  lemma RatingRowsTotalStep(rows: seq<AnnotatedReview>, bank: string, n: nat, round3: real -> real)
    requires n > 0
    ensures SumTotals(RatingRows(rows, bank, n, round3)) ==
      SumTotals(RatingRows(rows, bank, n - 1, round3)) + |Slice(rows, bank, n)|
  {
    var prev := RatingRows(rows, bank, n - 1, round3);
    var slice := Slice(rows, bank, n);
    var extra: seq<AggregateRow> := if |slice| > 0 then [MakeRow(slice, bank, n, round3)] else [];
    RatingRowsSnoc(rows, bank, n, round3);
    SumTotalsAppend(prev, extra);
    SliceRowTotal(slice, bank, n, round3);
  }

  /** The row emitted for a slice, if any, counts the slice's reviews. */
  lemma SliceRowTotal(slice: seq<AnnotatedReview>, bank: string, r: int, round3: real -> real)
    ensures SumTotals(if |slice| > 0 then [MakeRow(slice, bank, r, round3)] else []) == |slice|
  {
    if |slice| > 0 {
      var row := MakeRow(slice, bank, r, round3);
      assert [row][..0] == [];
    }
  }

  function IsBankRow(bank: string): AggregateRow -> bool
  {
    (x: AggregateRow) => x.bank == bank
  }

  lemma {:induction false} BankTotalOver(rows: seq<AnnotatedReview>, banks: seq<string>, bank: string, round3: real -> real)
    requires Distinct(banks)
    ensures SumTotals(Filter(IsBankRow(bank), AggregateOver(rows, banks, round3))) ==
      if bank in banks then Count(InRatedRange(bank, 5), rows) else 0
    decreases |banks|
  {
    if banks != [] {
      var init := banks[..|banks| - 1];
      var last := banks[|banks| - 1];
      var block := RatingRows(rows, last, 5, round3);
      BankTotalOver(rows, init, bank, round3);
      FilterAppend(IsBankRow(bank), AggregateOver(rows, init, round3), block);
      SumTotalsAppend(Filter(IsBankRow(bank), AggregateOver(rows, init, round3)), Filter(IsBankRow(bank), block));
      RatingRowsShape(rows, last, 5, round3);
      if last == bank {
        FilterKeepsAll(IsBankRow(bank), block);
        RatingRowsTotal(rows, bank, 5, round3);
      } else {
        FilterDropsAll(IsBankRow(bank), block);
      }
    }
  }

  /** Summed over a bank's rows, `total_reviews` is the number of that
      bank's reviews rated 1 to 5. */
  lemma BankTotalsConserved(rows: seq<AnnotatedReview>, bank: string, round3: real -> real)
    ensures SumTotals(Filter(IsBankRow(bank), Aggregated(rows, round3))) == Count(InRatedRange(bank, 5), rows)
  {
    var banks := Unique(BankColumn(rows));
    BankTotalOver(rows, banks, bank, round3);
    if Count(InRatedRange(bank, 5), rows) > 0 {
      var f := Filter(InRatedRange(bank, 5), rows);
      FilterSound(InRatedRange(bank, 5), rows);
      assert f[0] in rows && f[0].row.bank == bank;
      var k :| 0 <= k < |rows| && rows[k] == f[0];
      assert BankColumn(rows)[k] == bank;
    }
  }

  // Order: banks in first-appearance order, ratings ascending within one.

  /** Row `x` comes before row `y`: an earlier bank, or the same bank and
      a lower rating. */
  predicate Precedes(banks: seq<string>, x: AggregateRow, y: AggregateRow)
    requires x.bank in banks && y.bank in banks
  {
    IndexOf(banks, x.bank) < IndexOf(banks, y.bank) || (x.bank == y.bank && x.rating < y.rating)
  }

  predicate RowsInOrder(banks: seq<string>, x: AggregateRow, y: AggregateRow)
  {
    x.bank in banks && y.bank in banks && Precedes(banks, x, y)
  }

  /** Every row of `t` comes before every later row. */
  predicate InTableOrder(banks: seq<string>, t: seq<AggregateRow>)
  {
    forall i, j :: 0 <= i < j < |t| ==> RowsInOrder(banks, t[i], t[j])
  }

  /** The table built for `banks[..k]` holds rows of those banks only. */
  lemma {:induction false} AggregatePrefixBanks(rows: seq<AnnotatedReview>, banks: seq<string>, k: nat, round3: real -> real)
    requires Distinct(banks) && k <= |banks|
    ensures forall x :: x in AggregateOver(rows, banks[..k], round3) ==> x.bank in banks && IndexOf(banks, x.bank) < k
    decreases k
  {
    if k > 0 {
      var front := AggregateOver(rows, banks[..k - 1], round3);
      var block := RatingRows(rows, banks[k - 1], 5, round3);
      AggregatePrefixBanks(rows, banks, k - 1, round3);
      AggregateOverSnoc(rows, banks, k, round3);
      RatingRowsBounds(rows, banks[k - 1], 5, round3);
      assert IndexOf(banks, banks[k - 1]) == k - 1;
      forall x: AggregateRow | x in front + block
        ensures x.bank in banks && IndexOf(banks, x.bank) < k
      {
        if x !in front {
          assert x in block;
        }
      }
    }
  }

  /** Two ordered runs stay ordered when the seam between them is. */
  lemma OrderAppend(banks: seq<string>, a: seq<AggregateRow>, b: seq<AggregateRow>)
    requires InTableOrder(banks, a) && InTableOrder(banks, b)
    requires forall x, y :: x in a && y in b ==> RowsInOrder(banks, x, y)
    ensures InTableOrder(banks, a + b)
  {
    var t := a + b;
    forall i: int, j: int | 0 <= i < j < |t|
      ensures RowsInOrder(banks, t[i], t[j])
    {
      if j < |a| {
        assert t[i] == a[i] && t[j] == a[j];
      } else if i < |a| {
        assert t[i] == a[i] && t[j] == b[j - |a|];
        assert t[i] in a && t[j] in b;
      } else {
        assert t[i] == b[i - |a|] && t[j] == b[j - |a|];
      }
    }
  }

  /** One bank's block is ordered by ascending rating. */
  lemma BlockOrdered(rows: seq<AnnotatedReview>, banks: seq<string>, bank: string, round3: real -> real)
    requires bank in banks
    ensures InTableOrder(banks, RatingRows(rows, bank, 5, round3))
  {
    var block := RatingRows(rows, bank, 5, round3);
    RatingRowsBounds(rows, bank, 5, round3);
    RatingRowsAscending(rows, bank, 5, round3);
    forall i: int, j: int | 0 <= i < j < |block|
      ensures RowsInOrder(banks, block[i], block[j])
    {
      assert block[i] in block && block[j] in block;
    }
  }

  /** Every row before bank `banks[k - 1]`'s block precedes every row of it. */
  lemma SeamOrdered(rows: seq<AnnotatedReview>, banks: seq<string>, k: nat, round3: real -> real)
    requires Distinct(banks) && 0 < k <= |banks|
    ensures forall x, y ::
      x in AggregateOver(rows, banks[..k - 1], round3) && y in RatingRows(rows, banks[k - 1], 5, round3) ==>
      RowsInOrder(banks, x, y)
  {
    var prev := AggregateOver(rows, banks[..k - 1], round3);
    var block := RatingRows(rows, banks[k - 1], 5, round3);
    AggregatePrefixBanks(rows, banks, k - 1, round3);
    RatingRowsBounds(rows, banks[k - 1], 5, round3);
    assert IndexOf(banks, banks[k - 1]) == k - 1;
    forall x: AggregateRow, y: AggregateRow | x in prev && y in block
      ensures RowsInOrder(banks, x, y)
    {
      assert y.bank == banks[k - 1];
      assert IndexOf(banks, x.bank) < k - 1;
    }
  }

  lemma {:induction false} AggregatePrefixOrdered(rows: seq<AnnotatedReview>, banks: seq<string>, k: nat, round3: real -> real)
    requires Distinct(banks) && k <= |banks|
    ensures InTableOrder(banks, AggregateOver(rows, banks[..k], round3))
    decreases k
  {
    if k > 0 {
      AggregatePrefixOrdered(rows, banks, k - 1, round3);
      AggregateOverSnoc(rows, banks, k, round3);
      var prev := AggregateOver(rows, banks[..k - 1], round3);
      var block := RatingRows(rows, banks[k - 1], 5, round3);
      BlockOrdered(rows, banks, banks[k - 1], round3);
      SeamOrdered(rows, banks, k, round3);
      OrderAppend(banks, prev, block);
    } else {
      assert AggregateOver(rows, banks[..k], round3) == [];
    }
  }

  /** The rows come out ordered by the first appearance of their bank,
      then by ascending rating. */
  lemma AggregateOrdered(rows: seq<AnnotatedReview>, round3: real -> real)
    ensures InTableOrder(Unique(BankColumn(rows)), Aggregated(rows, round3))
  {
    var banks := Unique(BankColumn(rows));
    AggregatePrefixOrdered(rows, banks, |banks|, round3);
    assert banks[..|banks|] == banks;
  }
}
