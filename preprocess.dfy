/** The normaliser (src/preprocess.py): de-duplication on `review_id`,
    dropping rows without a review, filling and reformatting dates, and the
    per-bank coverage report. The clock and the date parser are
    parameters. */
module Preprocess {
  import opened Records
  import opened Seqs

  // ---------------------------------------------------------------------
  // De-duplication (`drop_duplicates(subset=['review_id'])`)

  /** Some row of `rows` carries `id`. */
  predicate HasId(rows: seq<Review>, id: string)
  {
    exists k :: 0 <= k < |rows| && rows[k].reviewId == id
  }

  /** Keeps the first row of each `review_id`, in order. */
  function DropDuplicates(rows: seq<Review>): (r: seq<Review>)
    ensures |r| <= |rows|
    decreases |rows|
  {
    if rows == [] then []
    else
      var init := rows[..|rows| - 1];
      var last := rows[|rows| - 1];
      if HasId(init, last.reviewId) then DropDuplicates(init) else DropDuplicates(init) + [last]
  }

  function Ids(rows: seq<Review>): (r: seq<string>)
    ensures |r| == |rows| && forall k :: 0 <= k < |rows| ==> r[k] == rows[k].reviewId
  {
    seq(|rows|, k requires 0 <= k < |rows| => rows[k].reviewId)
  }

  /** De-duplication keeps the order of the rows it keeps. */
  lemma {:induction false} DropDuplicatesIsSubseq(rows: seq<Review>)
    ensures IsSubseq(DropDuplicates(rows), rows)
    decreases |rows|
  {
    if rows != [] {
      var init := rows[..|rows| - 1];
      var last := rows[|rows| - 1];
      var d := DropDuplicates(init);
      var r := DropDuplicates(rows);
      DropDuplicatesIsSubseq(init);
      if HasId(init, last.reviewId) {
        assert r == d;
      } else {
        assert r == d + [last];
        assert r[..|r| - 1] == d;
      }
    }
  }

  /** De-duplication loses no id and invents none. */
  lemma {:induction false} DropDuplicatesSameIds(rows: seq<Review>, id: string)
    ensures HasId(DropDuplicates(rows), id) <==> HasId(rows, id)
    decreases |rows|
  {
    if rows != [] {
      var init := rows[..|rows| - 1];
      var last := rows[|rows| - 1];
      var d := DropDuplicates(init);
      var r := DropDuplicates(rows);
      DropDuplicatesSameIds(init, id);
      if HasId(rows, id) {
        var k :| 0 <= k < |rows| && rows[k].reviewId == id;
        if k < |rows| - 1 {
          assert init[k] == rows[k];
          var j :| 0 <= j < |d| && d[j].reviewId == id;
          assert r[j] == d[j];
        } else if !HasId(init, id) {
          assert r[|r| - 1] == last;
        }
      }
      if HasId(r, id) {
        var j :| 0 <= j < |r| && r[j].reviewId == id;
        if j < |d| {
          assert r[j] == d[j];
          var k :| 0 <= k < |init| && init[k].reviewId == id;
          assert rows[k] == init[k];
        } else {
          assert r[j] == last;
        }
      }
    }
  }

  /** After de-duplication no two rows share an id. */
  lemma {:induction false} DropDuplicatesDistinct(rows: seq<Review>)
    ensures Distinct(Ids(DropDuplicates(rows)))
    decreases |rows|
  {
    if rows != [] {
      var init := rows[..|rows| - 1];
      var last := rows[|rows| - 1];
      var d := DropDuplicates(init);
      var r := DropDuplicates(rows);
      DropDuplicatesDistinct(init);
      if !HasId(init, last.reviewId) {
        DropDuplicatesSameIds(init, last.reviewId);
        assert r == d + [last];
        forall i, j | 0 <= i < j < |r|
          ensures Ids(r)[i] != Ids(r)[j]
        {
          assert r[i] == d[i];
          if j < |r| - 1 {
            assert r[j] == d[j];
            assert Ids(d)[i] != Ids(d)[j];
          }
        }
      }
    }
  }

  /** Row `k` is the first row carrying its id. */
  predicate FirstOccurrence(rows: seq<Review>, k: int)
    requires 0 <= k < |rows|
  {
    forall j :: 0 <= j < k ==> rows[j].reviewId != rows[k].reviewId
  }

  /** The row kept for an id is its first occurrence. */
  lemma {:induction false} DropDuplicatesKeepsFirst(rows: seq<Review>, k: int)
    requires 0 <= k < |rows| && FirstOccurrence(rows, k)
    ensures rows[k] in DropDuplicates(rows)
    decreases |rows|
  {
    var init := rows[..|rows| - 1];
    var last := rows[|rows| - 1];
    if k < |rows| - 1 {
      assert init[k] == rows[k];
      assert FirstOccurrence(init, k);
      DropDuplicatesKeepsFirst(init, k);
    } else {
      assert !HasId(init, last.reviewId);
    }
  }

  /** Every kept row is the first occurrence of its id. */
  lemma {:induction false} DropDuplicatesOnlyFirsts(rows: seq<Review>, i: int)
    requires 0 <= i < |DropDuplicates(rows)|
    ensures exists k :: 0 <= k < |rows| && rows[k] == DropDuplicates(rows)[i] && FirstOccurrence(rows, k)
    decreases |rows|
  {
    var init := rows[..|rows| - 1];
    var last := rows[|rows| - 1];
    var d := DropDuplicates(init);
    var r := DropDuplicates(rows);
    if i < |d| {
      assert r[i] == d[i];
      DropDuplicatesOnlyFirsts(init, i);
      var k :| 0 <= k < |init| && init[k] == d[i] && FirstOccurrence(init, k);
      assert rows[k] == init[k];
      assert FirstOccurrence(rows, k);
    } else {
      assert r == d + [last] && r[i] == last;
      assert FirstOccurrence(rows, |rows| - 1);
    }
  }

  /** The reported duplicate count, `initial_count - len(df)`, is the
      number of rows that repeat an earlier row's id. */
  lemma {:induction false} DuplicateCount(rows: seq<Review>)
    ensures |rows| - |DropDuplicates(rows)| == Repeats(rows)
    decreases |rows|
  {
    if rows != [] {
      DuplicateCount(rows[..|rows| - 1]);
    }
  }

  /** Rows that repeat an earlier row's id. */
  function Repeats(rows: seq<Review>): nat
    decreases |rows|
  {
    if rows == [] then 0
    else Repeats(rows[..|rows| - 1]) + (if HasId(rows[..|rows| - 1], rows[|rows| - 1].reviewId) then 1 else 0)
  }

  // ---------------------------------------------------------------------
  // Missing reviews (`dropna(subset=['review'])`)

  function HasReview(r: Review): bool
  {
    r.review.Some?
  }

  function MissingReview(r: Review): bool
  {
    r.review.None?
  }

  function DropMissingReviews(rows: seq<Review>): seq<Review>
  {
    Filter(HasReview, rows)
  }

  /** Exactly the rows with a missing review go: every kept row has a
      review (possibly empty), every row with a review is kept, and the
      number removed is the number of missing reviews. */
  lemma {:induction false} DropMissingSpec(rows: seq<Review>)
    ensures forall r :: r in DropMissingReviews(rows) ==> r.review.Some? && r in rows
    ensures forall k :: 0 <= k < |rows| && rows[k].review.Some? ==> rows[k] in DropMissingReviews(rows)
    ensures |rows| - |DropMissingReviews(rows)| == Count(MissingReview, rows)
    ensures IsSubseq(DropMissingReviews(rows), rows)
    decreases |rows|
  {
    FilterSound(HasReview, rows);
    FilterIsSubseq(HasReview, rows);
    forall k | 0 <= k < |rows| && rows[k].review.Some?
      ensures rows[k] in DropMissingReviews(rows)
    {
      FilterComplete(HasReview, rows, k);
    }
    MissingPartition(rows);
  }

  lemma {:induction false} MissingPartition(rows: seq<Review>)
    ensures Count(HasReview, rows) + Count(MissingReview, rows) == |rows|
    decreases |rows|
  {
    if rows != [] {
      MissingPartition(rows[..|rows| - 1]);
    }
  }

  // ---------------------------------------------------------------------
  // Dates

  /** `df['date'].fillna(today)`, `today` being the clock's date already
      formatted as `%Y-%m-%d`. */
  function FillDates(rows: seq<Review>, today: string): (r: seq<Review>)
    ensures |r| == |rows|
    ensures forall k :: 0 <= k < |rows| ==>
      r[k].date.Some? && r[k] == rows[k].(date := r[k].date) &&
      (rows[k].date.Some? ==> r[k].date == rows[k].date) &&
      (rows[k].date.None? ==> r[k].date == Some(today))
  {
    seq(|rows|, k requires 0 <= k < |rows| =>
      if rows[k].date.None? then rows[k].(date := Some(today)) else rows[k])
  }

  /** `pd.to_datetime(d).strftime('%Y-%m-%d')` for one date string; `None`
      when the parser rejects it. */
  type DateParser = string -> Option<string>

  predicate AllDatesParse(rows: seq<Review>, parse: DateParser)
  {
    forall k :: 0 <= k < |rows| && rows[k].date.Some? ==> parse(rows[k].date.value).Some?
  }

  /** The reformat inside `try`: if every date parses, every date is
      replaced by its reformatted text; otherwise the column is left as it
      was and a warning is issued. */
  function ReformatDates(rows: seq<Review>, parse: DateParser): (r: (seq<Review>, bool))
    ensures r.1 <==> !AllDatesParse(rows, parse)
    ensures r.1 ==> r.0 == rows
    ensures |r.0| == |rows|
    ensures !r.1 ==> forall k :: 0 <= k < |rows| ==>
      r.0[k] == rows[k].(date := if rows[k].date.Some? then parse(rows[k].date.value) else None)
  {
    if AllDatesParse(rows, parse) then
      (seq(|rows|, k requires 0 <= k < |rows| =>
        rows[k].(date := if rows[k].date.Some? then parse(rows[k].date.value) else None)), false)
    else (rows, true)
  }

  // ---------------------------------------------------------------------
  // Coverage report

  const TargetBanks: seq<string> := ["Commercial Bank of Ethiopia", "Bank of Abyssinia", "Dashen Bank"]

  /** Reviews a bank needs for a "YES". */
  const Threshold: nat := 400

  function OfBank(bank: string): Review -> bool
  {
    (r: Review) => r.bank == bank
  }

  /** `df['bank'].value_counts().get(bank, 0)` */
  function BankCount(rows: seq<Review>, bank: string): nat
  {
    Count(OfBank(bank), rows)
  }

  /** A bank with no rows counts 0. */
  lemma AbsentBankCountsZero(rows: seq<Review>, bank: string)
    requires forall k :: 0 <= k < |rows| ==> rows[k].bank != bank
    ensures BankCount(rows, bank) == 0
  {
    FilterDropsAll(OfBank(bank), rows);
  }

  /** One line of the report. */
  datatype Coverage = Coverage(bank: string, count: nat, met: bool)

  /** The status loop over the three fixed banks. */
  method ReportCoverage(rows: seq<Review>) returns (report: seq<Coverage>)
    ensures |report| == |TargetBanks|
    ensures forall i :: 0 <= i < |TargetBanks| ==>
      report[i].bank == TargetBanks[i] && report[i].count == BankCount(rows, TargetBanks[i]) &&
      (report[i].met <==> report[i].count >= Threshold)
  {
    report := [];
    for i := 0 to |TargetBanks|
      invariant |report| == i
      invariant forall j :: 0 <= j < i ==>
        report[j].bank == TargetBanks[j] && report[j].count == BankCount(rows, TargetBanks[j]) &&
        (report[j].met <==> report[j].count >= Threshold)
    {
      var bank := TargetBanks[i];
      var count := BankCount(rows, bank);
      var status := count >= Threshold;
      report := report + [Coverage(bank, count, status)];
    }
  }

  // ---------------------------------------------------------------------
  // The whole stage

  /** What `preprocess_reviews` computes besides the cleaned rows: the two
      printed counts, whether the date warning fired, and the report. */
  datatype Summary = Summary(duplicatesRemoved: nat, missingRemoved: nat, dateWarning: bool, coverage: seq<Coverage>)

  /** The cleaned rows of `preprocess_reviews`. */
  function Cleaned(rows: seq<Review>, today: string, parse: DateParser): seq<Review>
  {
    ReformatDates(FillDates(DropMissingReviews(DropDuplicates(rows)), today), parse).0
  }

  method PreprocessReviews(rows: seq<Review>, today: string, parse: DateParser)
    returns (cleaned: seq<Review>, summary: Summary)
    ensures cleaned == Cleaned(rows, today, parse)
    ensures summary.duplicatesRemoved == Repeats(rows)
    ensures summary.missingRemoved == Count(MissingReview, DropDuplicates(rows))
    ensures summary.dateWarning <==> !AllDatesParse(FillDates(DropMissingReviews(DropDuplicates(rows)), today), parse)
    ensures |summary.coverage| == |TargetBanks|
    ensures forall i :: 0 <= i < |TargetBanks| ==>
      summary.coverage[i].bank == TargetBanks[i] &&
      summary.coverage[i].count == BankCount(cleaned, TargetBanks[i]) &&
      (summary.coverage[i].met <==> summary.coverage[i].count >= Threshold)
  {
    var initialCount := |rows|;
    var deduped := DropDuplicates(rows);
    DuplicateCount(rows);
    var duplicates := initialCount - |deduped|;
    var missingBefore := Count(MissingReview, deduped);
    var present := DropMissingReviews(deduped);
    DropMissingSpec(deduped);
    FilterDropsAll(MissingReview, present);
    var filled := FillDates(present, today);
    var reformatted := ReformatDates(filled, parse);
    cleaned := reformatted.0;
    var coverage := ReportCoverage(cleaned);
    summary := Summary(duplicates, missingBefore - Count(MissingReview, present), reformatted.1, coverage);
  }

  /** Rows are never created: with the date column set aside, the cleaned
      rows are a subsequence of the input rows. */
  lemma CleanedIsSubseq(rows: seq<Review>, today: string, parse: DateParser)
    ensures IsSubseq(Undated(Cleaned(rows, today, parse)), Undated(rows))
  {
    var deduped := DropDuplicates(rows);
    var present := DropMissingReviews(deduped);
    DropDuplicatesIsSubseq(rows);
    DropMissingSpec(deduped);
    SubseqTrans(present, deduped, rows);
    SubseqUndated(present, rows);
    var filled := FillDates(present, today);
    assert Undated(filled) == Undated(present);
    assert Undated(ReformatDates(filled, parse).0) == Undated(filled);
  }

  /** The rows with the date column blanked. */
  function Undated(rows: seq<Review>): (r: seq<Review>)
    ensures |r| == |rows| && forall k :: 0 <= k < |rows| ==> r[k] == rows[k].(date := None)
  {
    seq(|rows|, k requires 0 <= k < |rows| => rows[k].(date := None))
  }

  lemma {:induction false} SubseqUndated(a: seq<Review>, b: seq<Review>)
    requires IsSubseq(a, b)
    ensures IsSubseq(Undated(a), Undated(b))
    decreases |b|
  {
    if a != [] {
      assert Undated(a)[..|a| - 1] == Undated(a[..|a| - 1]);
      assert Undated(b)[..|b| - 1] == Undated(b[..|b| - 1]);
      if a[|a| - 1] == b[|b| - 1] && IsSubseq(a[..|a| - 1], b[..|b| - 1]) {
        SubseqUndated(a[..|a| - 1], b[..|b| - 1]);
      } else {
        SubseqUndated(a, b[..|b| - 1]);
      }
    }
  }
}
