/** The report of `generate_recommendations` (src/insights.py): per bank,
    the driver and pain-point labels detected in its positive and negative
    reviews; the comparison table and the ranking of banks by mean rating;
    the recommendation table with its data-driven additions; and the
    overall share of positive reviews. Printing is not modelled: each
    printed quantity is a field of the result. */
module Insights {
  import opened Records
  import opened Seqs
  import opened Text
  import opened Sentiment

  // ---------------------------------------------------------------------
  // Rows of one bank and their text

  function OfBank(bank: string): AnnotatedReview -> bool
  {
    (r: AnnotatedReview) => r.row.bank == bank
  }

  /** `df[df['bank'] == bank]` */
  function BankRows(rows: seq<AnnotatedReview>, bank: string): seq<AnnotatedReview>
  {
    Filter(OfBank(bank), rows)
  }

  /** `df['bank'].unique()` */
  function Banks(rows: seq<AnnotatedReview>): seq<string>
  {
    Unique(BankColumn(rows))
  }

  /** `reviews['review'].astype(str).str.lower()` */
  function LoweredTexts(rows: seq<AnnotatedReview>): (r: seq<string>)
    ensures |r| == |rows|
    ensures forall k :: 0 <= k < |rows| ==> r[k] == LowerStr(PyStr(rows[k].row.review))
  {
    seq(|rows|, k requires 0 <= k < |rows| => LowerStr(PyStr(rows[k].row.review)))
  }

  /** `' '.join(...)` of the lowered texts. */
  function JoinedText(rows: seq<AnnotatedReview>): string
  {
    Join(LoweredTexts(rows), " ")
  }

  // ---------------------------------------------------------------------
  // Drivers and pain points

  /** A keyword table: labels with their keywords, in declaration order. */
  type KeywordTable = seq<(string, seq<string>)>

  const DriverKeywords: KeywordTable := [
    ("Fast Transactions", ["fast", "quick", "instant", "speed"]),
    ("Easy to Use", ["easy", "simple", "user-friendly", "intuitive"]),
    ("Good UI", ["interface", "design", "look", "smooth", "ui"]),
    ("Reliable", ["reliable", "stable", "consistent", "dependable"]),
    ("Good Support", ["support", "helpful", "responsive", "customer service"])
  ]

  const PainKeywords: KeywordTable := [
    ("Slow Performance", ["slow", "lag", "delay", "wait", "loading"]),
    ("App Crashes", ["crash", "freeze", "close", "stop working", "bug"]),
    ("Login Issues", ["login", "password", "cant enter", "access", "sign in"]),
    ("Transfer Problems", ["transfer", "transaction", "send money", "failed"]),
    ("Poor Support", ["support", "help", "response", "ignore", "no reply"])
  ]

  /** How many detected labels are printed. */
  const ShownCount: nat := 2

  /** The labels, in table order, one of whose keywords occurs in `text`. */
  function Detected(table: KeywordTable, text: string): (r: seq<string>)
    ensures |r| <= |table|
    decreases |table|
  {
    if table == [] then []
    else
      var last := table[|table| - 1];
      Detected(table[..|table| - 1], text) + (if MentionsAny(last.1, text) then [last.0] else [])
  }

  /** The detection loop of lines 130-132 (and 153-155). */
  method DetectLabels(table: KeywordTable, text: string) returns (found: seq<string>)
    ensures found == Detected(table, text)
  {
    found := [];
    for i := 0 to |table|
      invariant found == Detected(table[..i], text)
    {
      var name := table[i].0;
      var keywords := table[i].1;
      assert table[..i + 1][..i] == table[..i];
      if exists w :: w in keywords && IsSubstring(w, text) {
        found := found + [name];
      }
    }
    assert table[..|table|] == table;
  }

  /** A name is detected exactly when one of its keywords occurs in the
      text. */
  lemma {:induction false} DetectedExact(table: KeywordTable, text: string, name: string)
    ensures name in Detected(table, text) <==>
      exists i :: 0 <= i < |table| && table[i].0 == name && MentionsAny(table[i].1, text)
    decreases |table|
  {
    if table != [] {
      var init := table[..|table| - 1];
      DetectedExact(init, text, name);
      if exists i :: 0 <= i < |table| && table[i].0 == name && MentionsAny(table[i].1, text) {
        var i :| 0 <= i < |table| && table[i].0 == name && MentionsAny(table[i].1, text);
        if i < |init| {
          assert init[i] == table[i];
        }
      }
      if name in Detected(init, text) {
        var i :| 0 <= i < |init| && init[i].0 == name && MentionsAny(init[i].1, text);
        assert table[i] == init[i];
      }
    }
  }

  /** Detected labels keep the table's order. */
  lemma {:induction false} DetectedInTableOrder(table: KeywordTable, text: string)
    ensures IsSubseq(Detected(table, text), Firsts(table))
    decreases |table|
  {
    if table != [] {
      var init := table[..|table| - 1];
      var last := table[|table| - 1];
      DetectedInTableOrder(init, text);
      var d := Detected(table, text);
      var ls := Firsts(table);
      assert ls[..|ls| - 1] == Firsts(init);
      if MentionsAny(last.1, text) {
        assert d[..|d| - 1] == Detected(init, text);
      } else {
        assert d == Detected(init, text);
      }
    }
  }

  /** A keyword found in one review's lowered text is found in the joined
      text, so its label is detected. */
  lemma ReviewHitIsDetected(table: KeywordTable, rows: seq<AnnotatedReview>, k: int, i: int)
    requires 0 <= k < |rows| && 0 <= i < |table|
    requires MentionsAny(table[i].1, LowerStr(PyStr(rows[k].row.review)))
    ensures table[i].0 in Detected(table, JoinedText(rows))
  {
    MentionInPartMentionsJoin(table[i].1, LoweredTexts(rows), " ", k);
    DetectedExact(table, JoinedText(rows), table[i].0);
  }

  /** What the first section finds for one bank: the detected drivers
      (none when the bank has no positive review, and the section is
      skipped) and pain points (likewise for negative reviews), and the
      part of each list that is printed. */
  datatype BankFindings = BankFindings(bank: string,
    drivers: Option<seq<string>>, painPoints: Option<seq<string>>,
    shownDrivers: Option<seq<string>>, shownPainPoints: Option<seq<string>>)

  /** `labels[:2]`, the part that is printed. */
  function Shown(labels: seq<string>): (r: seq<string>)
    ensures |r| == if |labels| <= ShownCount then |labels| else ShownCount
    ensures r <= labels
  {
    Take(labels, ShownCount)
  }

  function ShownPart(found: Option<seq<string>>): Option<seq<string>>
  {
    if found.Some? then Some(Shown(found.value)) else None
  }

  function FindingsOf(rows: seq<AnnotatedReview>, bank: string): BankFindings
  {
    var bankRows := BankRows(rows, bank);
    var positive := Filter(HasLabel(Positive), bankRows);
    var negative := Filter(HasLabel(Negative), bankRows);
    var drivers := if |positive| > 0 then Some(Detected(DriverKeywords, JoinedText(positive))) else None;
    var painPoints := if |negative| > 0 then Some(Detected(PainKeywords, JoinedText(negative))) else None;
    BankFindings(bank, drivers, painPoints, ShownPart(drivers), ShownPart(painPoints))
  }

  /** One bank of the first section. */
  method AnalyzeBankText(rows: seq<AnnotatedReview>, bank: string) returns (f: BankFindings)
    ensures f == FindingsOf(rows, bank)
  {
    var bankRows := BankRows(rows, bank);
    var positive := Filter(HasLabel(Positive), bankRows);
    var negative := Filter(HasLabel(Negative), bankRows);
    var drivers: Option<seq<string>> := None;
    var painPoints: Option<seq<string>> := None;
    var shownDrivers: Option<seq<string>> := None;
    var shownPainPoints: Option<seq<string>> := None;
    if |positive| > 0 {
      var found := DetectLabels(DriverKeywords, JoinedText(positive));
      drivers := Some(found);
      shownDrivers := Some(Shown(found));
    }
    if |negative| > 0 {
      var found := DetectLabels(PainKeywords, JoinedText(negative));
      painPoints := Some(found);
      shownPainPoints := Some(Shown(found));
    }
    f := BankFindings(bank, drivers, painPoints, shownDrivers, shownPainPoints);
  }

  /** The findings for every bank, in order of first appearance. */
  function AllFindings(rows: seq<AnnotatedReview>): (r: seq<BankFindings>)
    ensures |r| == |Banks(rows)|
  {
    var banks := Banks(rows);
    seq(|banks|, i requires 0 <= i < |banks| => FindingsOf(rows, banks[i]))
  }

  /** The loop of lines 108-159. */
  method FindDriversAndPainPoints(rows: seq<AnnotatedReview>) returns (findings: seq<BankFindings>)
    ensures findings == AllFindings(rows)
  {
    var banks := Banks(rows);
    findings := [];
    for i := 0 to |banks|
      invariant findings == AllFindings(rows)[..i]
    {
      var f := AnalyzeBankText(rows, banks[i]);
      findings := findings + [f];
    }
  }

  /** The driver section is printed exactly when the bank has a positive
      review, and then lists exactly the labels one of whose keywords
      occurs in the bank's joined positive text. */
  lemma DriversMeaning(rows: seq<AnnotatedReview>, bank: string, name: string)
    ensures FindingsOf(rows, bank).drivers.Some? <==>
      exists k :: 0 <= k < |rows| && rows[k].row.bank == bank && rows[k].sentimentLabel == Positive
    ensures FindingsOf(rows, bank).drivers.Some? ==>
      (name in FindingsOf(rows, bank).drivers.value <==>
        exists i :: (0 <= i < |DriverKeywords| && DriverKeywords[i].0 == name &&
          MentionsAny(DriverKeywords[i].1, JoinedText(Filter(HasLabel(Positive), BankRows(rows, bank))))))
  {
    LabelPresent(rows, bank, Positive);
    DetectedExact(DriverKeywords, JoinedText(Filter(HasLabel(Positive), BankRows(rows, bank))), name);
  }

  /** The same for pain points and negative reviews. */
  lemma PainPointsMeaning(rows: seq<AnnotatedReview>, bank: string, name: string)
    ensures FindingsOf(rows, bank).painPoints.Some? <==>
      exists k :: 0 <= k < |rows| && rows[k].row.bank == bank && rows[k].sentimentLabel == Negative
    ensures FindingsOf(rows, bank).painPoints.Some? ==>
      (name in FindingsOf(rows, bank).painPoints.value <==>
        exists i :: (0 <= i < |PainKeywords| && PainKeywords[i].0 == name &&
          MentionsAny(PainKeywords[i].1, JoinedText(Filter(HasLabel(Negative), BankRows(rows, bank))))))
  {
    LabelPresent(rows, bank, Negative);
    DetectedExact(PainKeywords, JoinedText(Filter(HasLabel(Negative), BankRows(rows, bank))), name);
  }

  /** The printed drivers of a bank are the first two detected drivers (all
      of them when fewer are detected), so each printed driver is a label
      whose keyword occurs in the bank's positive text; likewise for pain
      points. */
  lemma ShownFindings(rows: seq<AnnotatedReview>, bank: string, name: string)
    ensures var f := FindingsOf(rows, bank);
      f.shownDrivers.Some? == f.drivers.Some? &&
      (f.drivers.Some? ==> (f.shownDrivers.value <= f.drivers.value &&
        |f.shownDrivers.value| == if |f.drivers.value| <= ShownCount then |f.drivers.value| else ShownCount))
    ensures var f := FindingsOf(rows, bank);
      f.shownPainPoints.Some? == f.painPoints.Some? &&
      (f.painPoints.Some? ==> (f.shownPainPoints.value <= f.painPoints.value &&
        |f.shownPainPoints.value| == if |f.painPoints.value| <= ShownCount then |f.painPoints.value| else ShownCount))
    ensures var f := FindingsOf(rows, bank);
      f.shownDrivers.Some? && name in f.shownDrivers.value ==>
        exists i :: 0 <= i < |DriverKeywords| && DriverKeywords[i].0 == name &&
          MentionsAny(DriverKeywords[i].1, JoinedText(Filter(HasLabel(Positive), BankRows(rows, bank))))
    ensures var f := FindingsOf(rows, bank);
      f.shownPainPoints.Some? && name in f.shownPainPoints.value ==>
        exists i :: 0 <= i < |PainKeywords| && PainKeywords[i].0 == name &&
          MentionsAny(PainKeywords[i].1, JoinedText(Filter(HasLabel(Negative), BankRows(rows, bank))))
  {
    var f := FindingsOf(rows, bank);
    if f.shownDrivers.Some? && name in f.shownDrivers.value {
      assert name in f.drivers.value;
      DriversMeaning(rows, bank, name);
    }
    if f.shownPainPoints.Some? && name in f.shownPainPoints.value {
      assert name in f.painPoints.value;
      PainPointsMeaning(rows, bank, name);
    }
  }

  /** A bank has a review with label `l` exactly when filtering its rows
      by `l` leaves something. */
  lemma LabelPresent(rows: seq<AnnotatedReview>, bank: string, l: Label)
    ensures |Filter(HasLabel(l), BankRows(rows, bank))| > 0 <==>
      exists k :: 0 <= k < |rows| && rows[k].row.bank == bank && rows[k].sentimentLabel == l
  {
    var bankRows := BankRows(rows, bank);
    var hits := Filter(HasLabel(l), bankRows);
    if |hits| > 0 {
      FilterSound(HasLabel(l), bankRows);
      FilterSound(OfBank(bank), rows);
      var j :| 0 <= j < |bankRows| && bankRows[j] == hits[0];
      var k :| 0 <= k < |rows| && rows[k] == bankRows[j];
    }
    if exists k :: 0 <= k < |rows| && rows[k].row.bank == bank && rows[k].sentimentLabel == l {
      var k :| 0 <= k < |rows| && rows[k].row.bank == bank && rows[k].sentimentLabel == l;
      FilterComplete(OfBank(bank), rows, k);
      var j :| 0 <= j < |bankRows| && bankRows[j] == rows[k];
      FilterComplete(HasLabel(l), bankRows, j);
    }
  }

  // ---------------------------------------------------------------------
  // Bank comparison

  /** One entry of `comparison_data`. */
  datatype BankStats = BankStats(bank: string, avgRating: real, positivePct: real, reviewCount: nat)

  function SumRatings(rows: seq<AnnotatedReview>): int
    decreases |rows|
  {
    if rows == [] then 0 else SumRatings(rows[..|rows| - 1]) + rows[|rows| - 1].row.rating
  }

  /** Every bank of the column has rows. */
  lemma BankHasRows(rows: seq<AnnotatedReview>, bank: string)
    requires bank in Banks(rows)
    ensures |BankRows(rows, bank)| > 0
  {
    var k :| 0 <= k < |rows| && BankColumn(rows)[k] == bank;
    FilterComplete(OfBank(bank), rows, k);
  }

  /** The statistics of one bank of the column. */
  function StatsOf(rows: seq<AnnotatedReview>, bank: string): BankStats
    requires bank in Banks(rows)
  {
    BankHasRows(rows, bank);
    var bankRows := BankRows(rows, bank);
    var n := |bankRows| as real;
    BankStats(bank, SumRatings(bankRows) as real / n,
              (Count(HasLabel(Positive), bankRows) as real / n) * 100.0, |bankRows|)
  }

  /** `comparison_data`, in the order of `df['bank'].unique()`. */
  function Comparison(rows: seq<AnnotatedReview>): (r: seq<BankStats>)
    ensures |r| == |Banks(rows)|
  {
    var banks := Banks(rows);
    seq(|banks|, i requires 0 <= i < |banks| => StatsOf(rows, banks[i]))
  }

  /** The loop of lines 165-172. */
  method BuildComparison(rows: seq<AnnotatedReview>) returns (data: seq<BankStats>)
    ensures data == Comparison(rows)
  {
    var banks := Banks(rows);
    data := [];
    for i := 0 to |banks|
      invariant data == Comparison(rows)[..i]
    {
      var bankDf := BankRows(rows, banks[i]);
      BankHasRows(rows, banks[i]);
      var n := |bankDf| as real;
      var stats := BankStats(banks[i], SumRatings(bankDf) as real / n,
                             (Count(HasLabel(Positive), bankDf) as real / n) * 100.0, |bankDf|);
      data := data + [stats];
    }
  }

  lemma {:induction false} SumRatingsBounds(rows: seq<AnnotatedReview>)
    requires forall k :: 0 <= k < |rows| ==> 1 <= rows[k].row.rating <= 5
    ensures |rows| <= SumRatings(rows) <= 5 * |rows|
    decreases |rows|
  {
    if rows != [] {
      SumRatingsBounds(rows[..|rows| - 1]);
    }
  }

  lemma Fraction(p: real, n: real)
    requires 0.0 <= p <= n && n > 0.0
    ensures 0.0 <= p / n <= 1.0
    ensures p / n == 0.0 <==> p == 0.0
    ensures p / n == 1.0 <==> p == n
  {
    var q := p / n;
    assert q * n == p;
  }

  lemma MeanBounds(s: real, n: real)
    requires n > 0.0 && n <= s <= 5.0 * n
    ensures 1.0 <= s / n <= 5.0
  {
    var q := s / n;
    assert q * n == s;
  }

  lemma Scaled(x: real, n: real)
    requires n > 0.0
    ensures (x / n) * n == x && ((x / n) * 100.0) * n == 100.0 * x
  {
  }

  /** Each entry of the comparison describes its own bank: the review count
      is the number of the bank's rows, which is never zero; the mean
      rating times that count is the bank's rating sum; the positive share
      times that count is one hundred times its positive reviews, a
      percentage. */
  lemma ComparisonEntry(rows: seq<AnnotatedReview>, i: int)
    requires 0 <= i < |Banks(rows)|
    ensures var e := Comparison(rows)[i];
      e.bank == Banks(rows)[i] &&
      e.reviewCount == Count(OfBank(e.bank), rows) > 0 &&
      e.avgRating * (e.reviewCount as real) == SumRatings(BankRows(rows, e.bank)) as real &&
      e.positivePct * (e.reviewCount as real) == 100.0 * (Count(HasLabel(Positive), BankRows(rows, e.bank)) as real) &&
      0.0 <= e.positivePct <= 100.0
  {
    var bank := Banks(rows)[i];
    BankHasRows(rows, bank);
    var bankRows := BankRows(rows, bank);
    var n := |bankRows| as real;
    Fraction(Count(HasLabel(Positive), bankRows) as real, n);
    Scaled(SumRatings(bankRows) as real, n);
    Scaled(Count(HasLabel(Positive), bankRows) as real, n);
  }

  /** With ratings from 1 to 5 stars every mean rating lies between 1 and
      5. */
  lemma MeanRatingBounds(rows: seq<AnnotatedReview>, i: int)
    requires 0 <= i < |Banks(rows)|
    requires forall k :: 0 <= k < |rows| ==> 1 <= rows[k].row.rating <= 5
    ensures 1.0 <= Comparison(rows)[i].avgRating <= 5.0
  {
    var bank := Banks(rows)[i];
    BankHasRows(rows, bank);
    var bankRows := BankRows(rows, bank);
    FilterSound(OfBank(bank), rows);
    forall j | 0 <= j < |bankRows| ensures 1 <= bankRows[j].row.rating <= 5 {
      var k :| 0 <= k < |rows| && rows[k] == bankRows[j];
    }
    SumRatingsBounds(bankRows);
    MeanBounds(SumRatings(bankRows) as real, |bankRows| as real);
  }

  // ---------------------------------------------------------------------
  // Ranking: `sorted(..., key=avg_rating, reverse=True)`

  /** Inserts `x` before the first entry with a strictly lower mean, so
      that `x` stays ahead of entries with an equal mean. */
  function InsertByRating(x: BankStats, t: seq<BankStats>): (r: seq<BankStats>)
    ensures |r| == |t| + 1
    decreases |t|
  {
    if t == [] || x.avgRating >= t[0].avgRating then [x] + t
    else [t[0]] + InsertByRating(x, t[1..])
  }

  /** Python's stable sort, descending by mean rating. */
  function SortByRating(s: seq<BankStats>): (r: seq<BankStats>)
    ensures |r| == |s|
    decreases |s|
  {
    if s == [] then [] else InsertByRating(s[0], SortByRating(s[1..]))
  }

  predicate Descending(s: seq<BankStats>)
  {
    forall i, j :: 0 <= i < j < |s| ==> s[i].avgRating >= s[j].avgRating
  }

  lemma {:induction false} InsertPermutes(x: BankStats, t: seq<BankStats>)
    ensures multiset(InsertByRating(x, t)) == multiset([x] + t)
    decreases |t|
  {
    if t != [] && x.avgRating < t[0].avgRating {
      InsertPermutes(x, t[1..]);
      assert t == [t[0]] + t[1..];
    }
  }

  /** The ranking holds exactly the banks of the table. */
  lemma {:induction false} SortPermutes(s: seq<BankStats>)
    ensures multiset(SortByRating(s)) == multiset(s)
    decreases |s|
  {
    if s != [] {
      SortPermutes(s[1..]);
      InsertPermutes(s[0], SortByRating(s[1..]));
      assert s == [s[0]] + s[1..];
    }
  }

  lemma InsertMember(x: BankStats, t: seq<BankStats>, y: BankStats)
    requires y in InsertByRating(x, t)
    ensures y == x || y in t
  {
    InsertPermutes(x, t);
    assert y in multiset([x] + t);
  }

  lemma {:induction false} InsertDescending(x: BankStats, t: seq<BankStats>)
    requires Descending(t)
    ensures Descending(InsertByRating(x, t))
    decreases |t|
  {
    if t != [] && x.avgRating < t[0].avgRating {
      var rest := InsertByRating(x, t[1..]);
      InsertDescending(x, t[1..]);
      var r := InsertByRating(x, t);
      assert r == [t[0]] + rest;
      forall y | y in rest ensures t[0].avgRating >= y.avgRating {
        InsertMember(x, t[1..], y);
      }
      forall i, j | 0 <= i < j < |r| ensures r[i].avgRating >= r[j].avgRating {
        if i == 0 {
          assert r[j] in rest;
        } else {
          assert r[i] == rest[i - 1] && r[j] == rest[j - 1];
        }
      }
    }
  }

  /** The ranking is in descending order of mean rating. */
  lemma {:induction false} SortDescending(s: seq<BankStats>)
    ensures Descending(SortByRating(s))
    decreases |s|
  {
    if s != [] {
      SortDescending(s[1..]);
      InsertDescending(s[0], SortByRating(s[1..]));
    }
  }

  function WithRating(r: real): BankStats -> bool
  {
    (x: BankStats) => x.avgRating == r
  }

  lemma {:induction false} InsertStable(x: BankStats, t: seq<BankStats>, r: real)
    requires Descending(t)
    ensures Filter(WithRating(r), InsertByRating(x, t)) == Filter(WithRating(r), [x] + t)
    decreases |t|
  {
    if t != [] && x.avgRating < t[0].avgRating {
      var p := WithRating(r);
      var rest := t[1..];
      InsertStable(x, rest, r);
      FilterCons(p, t[0], InsertByRating(x, rest));
      FilterCons(p, x, rest);
      FilterCons(p, t[0], rest);
      FilterCons(p, x, t);
      assert t == [t[0]] + rest;
    }
  }

  /** Stability: among banks with the same mean rating, the ranking keeps
      their order of first appearance. */
  lemma {:induction false} SortStable(s: seq<BankStats>, r: real)
    ensures Filter(WithRating(r), SortByRating(s)) == Filter(WithRating(r), s)
    decreases |s|
  {
    if s != [] {
      var p := WithRating(r);
      SortStable(s[1..], r);
      SortDescending(s[1..]);
      InsertStable(s[0], SortByRating(s[1..]), r);
      FilterCons(p, s[0], SortByRating(s[1..]));
      FilterCons(p, s[0], s[1..]);
      assert s == [s[0]] + s[1..];
    }
  }

  /** `sorted_banks[0]`, which raises on an empty table. */
  function TopPerformer(data: seq<BankStats>): Option<BankStats>
  {
    if data == [] then None else Some(SortByRating(data)[0])
  }

  /** The top performer is a bank of the table with the highest mean
      rating, and the first such bank in the table's order. */
  lemma TopIsFirstBest(data: seq<BankStats>)
    requires data != []
    ensures TopPerformer(data).Some?
    ensures TopPerformer(data).value in data
    ensures forall x :: x in data ==> x.avgRating <= TopPerformer(data).value.avgRating
    ensures Filter(WithRating(TopPerformer(data).value.avgRating), data) != [] &&
      Filter(WithRating(TopPerformer(data).value.avgRating), data)[0] == TopPerformer(data).value
  {
    var sorted := SortByRating(data);
    var top := sorted[0];
    SortPermutes(data);
    SortDescending(data);
    assert top in multiset(data);
    forall x | x in data ensures x.avgRating <= top.avgRating {
      assert x in multiset(sorted);
      var j :| 0 <= j < |sorted| && sorted[j] == x;
    }
    SortStable(data, top.avgRating);
    FilterCons(WithRating(top.avgRating), top, sorted[1..]);
    assert sorted == [top] + sorted[1..];
  }

  // ---------------------------------------------------------------------
  // Recommendations

  /** A recommendation table: bank name to its numbered recommendations. */
  type Table = map<string, seq<string>>

  const RecommendedBanks: seq<string> := ["Commercial Bank of Ethiopia", "Bank of Abyssinia", "Dashen Bank"]

  /** The table of lines 189-202. */
  function BaseRecommendations(): Table
  {
    map[
      "Commercial Bank of Ethiopia" := [
        "1. Optimize app loading speed based on 'slow' feedback",
        "2. Enhance customer support response time"],
      "Bank of Abyssinia" := [
        "1. Fix login authentication issues reported by users",
        "2. Improve transaction success rate for money transfers"],
      "Dashen Bank" := [
        "1. Add biometric login option for faster access",
        "2. Implement in-app chat support feature"]
    ]
  }

  /** A table with an entry for each bank of `RecommendedBanks`. */
  predicate CoversBanks(base: Table)
  {
    forall b :: b in RecommendedBanks ==> b in base
  }

  /** The base table covers its three banks, each with two entries. */
  lemma BaseShape()
    ensures CoversBanks(BaseRecommendations())
    ensures forall b :: b in BaseRecommendations() ==> |BaseRecommendations()[b]| == 2
  {
  }

  const SlowWord: string := "slow"
  const CrashWord: string := "crash"
  const SlowAdvice: string := "3. Optimize server response time for peak hours"
  const CrashAdvice: string := "3. Release stability update for app crashes"

  /** The bank's negative reviews, lowered and joined (empty when it has
      none). */
  function NegativeText(rows: seq<AnnotatedReview>, bank: string): string
  {
    JoinedText(Filter(HasLabel(Negative), BankRows(rows, bank)))
  }

  /** The advice appended for one bank, given its negative text. */
  function Extras(text: string): seq<string>
  {
    (if IsSubstring(SlowWord, text) then [SlowAdvice] else []) +
    (if IsSubstring(CrashWord, text) then [CrashAdvice] else [])
  }

  /** Lines 210-215 for one bank. */
  function Adjust(recs: Table, bank: string, text: string): Table
  {
    var afterSlow := if IsSubstring(SlowWord, text) && bank in recs then recs[bank := recs[bank] + [SlowAdvice]] else recs;
    if IsSubstring(CrashWord, text) && bank in afterSlow then afterSlow[bank := afterSlow[bank] + [CrashAdvice]] else afterSlow
  }

  /** The table `base` after the adjustments for `banks`, in order. */
  function AdjustAll(rows: seq<AnnotatedReview>, base: Table, banks: seq<string>): Table
    decreases |banks|
  {
    if banks == [] then base
    else
      var last := banks[|banks| - 1];
      Adjust(AdjustAll(rows, base, banks[..|banks| - 1]), last, NegativeText(rows, last))
  }

  /** Lines 210-215 for one bank: the advice its negative text triggers
      is appended to its list. */
  method AdviseBank(recs: Table, bank: string, negText: string) returns (updated: Table)
    ensures updated == Adjust(recs, bank, negText)
  {
    updated := recs;
    if IsSubstring(SlowWord, negText) && bank in updated {
      updated := updated[bank := updated[bank] + [SlowAdvice]];
    }
    if IsSubstring(CrashWord, negText) && bank in updated {
      updated := updated[bank := updated[bank] + [CrashAdvice]];
    }
  }

  /** Adjusting one more bank of a prefix. */
  lemma AdjustAllSnoc(rows: seq<AnnotatedReview>, base: Table, banks: seq<string>, i: nat)
    requires i < |banks|
    ensures AdjustAll(rows, base, banks[..i + 1]) ==
      Adjust(AdjustAll(rows, base, banks[..i]), banks[i], NegativeText(rows, banks[i]))
  {
    assert banks[..i + 1][..i] == banks[..i];
  }

  /** The loop of lines 205-215 over the table `recs` starts from. */
  method AdjustRecommendations(rows: seq<AnnotatedReview>, base: Table) returns (recs: Table)
    ensures recs == AdjustAll(rows, base, Banks(rows))
  {
    var banks := Banks(rows);
    recs := base;
    for i := 0 to |banks|
      invariant recs == AdjustAll(rows, base, banks[..i])
    {
      AdjustAllSnoc(rows, base, banks, i);
      recs := AdviseBank(recs, banks[i], NegativeText(rows, banks[i]));
    }
    assert banks[..|banks|] == banks;
  }

  /** Adjusting never adds or removes a bank; it only appends to the list
      of the bank it is given. */
  lemma AdjustEffect(recs: Table, bank: string, text: string, b: string)
    ensures Adjust(recs, bank, text).Keys == recs.Keys
    ensures b in recs && b != bank ==> Adjust(recs, bank, text)[b] == recs[b]
    ensures bank in recs ==> Adjust(recs, bank, text)[bank] == recs[bank] + Extras(text)
  {
  }

  /** The final table: the same banks, each with its base entries followed
      by the advice triggered by its own negative reviews when it appears
      in the data. */
  lemma {:induction false} RecommendationsExact(rows: seq<AnnotatedReview>, base: Table, banks: seq<string>, b: string)
    requires Distinct(banks)
    ensures AdjustAll(rows, base, banks).Keys == base.Keys
    ensures b in base ==>
      AdjustAll(rows, base, banks)[b] == base[b] + (if b in banks then Extras(NegativeText(rows, b)) else [])
    decreases |banks|
  {
    if banks != [] {
      var init := banks[..|banks| - 1];
      var last := banks[|banks| - 1];
      assert Distinct(init);
      RecommendationsExact(rows, base, init, b);
      AdjustEffect(AdjustAll(rows, base, init), last, NegativeText(rows, last), b);
      assert b in banks <==> b in init || b == last;
      if b == last {
        assert b !in init;
      }
    }
  }

  function InData(rows: seq<AnnotatedReview>): string -> bool
  {
    (b: string) => b in Banks(rows)
  }

  /** Lines 217-221 over the banks `banks` of the final table `recs`: each
      one found in the data, in order, with the first two entries of its
      list. */
  function ShownFor(rows: seq<AnnotatedReview>, recs: Table, banks: seq<string>): (r: seq<(string, seq<string>)>)
    requires forall b :: b in banks ==> b in recs
    ensures Firsts(r) == Filter(InData(rows), banks)
    ensures forall k :: 0 <= k < |r| ==> r[k].0 in recs && r[k].1 == Take(recs[r[k].0], 2)
    decreases |banks|
  {
    if banks == [] then []
    else
      var init := banks[..|banks| - 1];
      var last := banks[|banks| - 1];
      var front := ShownFor(rows, recs, init);
      var r := if InData(rows)(last) then front + [(last, Take(recs[last], 2))] else front;
      assert Firsts(r) == Firsts(front) + (if InData(rows)(last) then [last] else []);
      r
  }

  /** The recommendations printed for the final table built from `base`. */
  function ShownRecommendations(rows: seq<AnnotatedReview>, base: Table): seq<(string, seq<string>)>
    requires CoversBanks(base)
  {
    RecommendationsExact(rows, base, Banks(rows), "");
    ShownFor(rows, AdjustAll(rows, base, Banks(rows)), RecommendedBanks)
  }

  /** Printing one more bank of the table. */
  lemma ShownForSnoc(rows: seq<AnnotatedReview>, recs: Table, banks: seq<string>, i: nat)
    requires i < |banks| && forall b :: b in banks ==> b in recs
    ensures ShownFor(rows, recs, banks[..i + 1]) ==
      ShownFor(rows, recs, banks[..i]) + (if banks[i] in Banks(rows) then [(banks[i], Take(recs[banks[i]], 2))] else [])
  {
    assert banks[..i + 1][..i] == banks[..i];
  }

  /** The loop of lines 217-221 over the final table. */
  method ShowRecommendations(rows: seq<AnnotatedReview>, recs: Table) returns (shown: seq<(string, seq<string>)>)
    requires forall b :: b in RecommendedBanks ==> b in recs
    ensures shown == ShownFor(rows, recs, RecommendedBanks)
  {
    var inData := Banks(rows);
    shown := [];
    for i := 0 to |RecommendedBanks|
      invariant shown == ShownFor(rows, recs, RecommendedBanks[..i])
    {
      ShownForSnoc(rows, recs, RecommendedBanks, i);
      var bank := RecommendedBanks[i];
      if bank in inData {
        shown := shown + [(bank, Take(recs[bank], 2))];
      }
    }
    assert RecommendedBanks[..|RecommendedBanks|] == RecommendedBanks;
  }

  /** The banks shown are those of the table found in the data, and
      appended advice is never printed when a bank starts with two
      entries: it shows exactly those. */
  lemma ShownAreBase(rows: seq<AnnotatedReview>, base: Table, k: int)
    requires CoversBanks(base) && forall b :: b in base ==> |base[b]| == 2
    requires 0 <= k < |ShownRecommendations(rows, base)|
    ensures |ShownRecommendations(rows, base)| == Count(InData(rows), RecommendedBanks)
    ensures var e := ShownRecommendations(rows, base)[k];
      e.0 in RecommendedBanks && e.0 in Banks(rows) && e.1 == base[e.0]
  {
    var shown := ShownRecommendations(rows, base);
    var present := Filter(InData(rows), RecommendedBanks);
    assert Firsts(shown) == present;
    FilterSound(InData(rows), RecommendedBanks);
    var b := present[k];
    assert shown[k].0 == b;
    RecommendationsExact(rows, base, Banks(rows), b);
    var extras := if b in Banks(rows) then Extras(NegativeText(rows, b)) else [];
    assert (base[b] + extras)[..2] == base[b];
  }

  // ---------------------------------------------------------------------
  // Overall sentiment

  /** `value_counts(normalize=True) * 100`, entry 'positive', default 0. */
  function OverallPositivePct(rows: seq<AnnotatedReview>): real
  {
    if rows == [] then 0.0
    else (Count(HasLabel(Positive), rows) as real / |rows| as real) * 100.0
  }

  /** The share is a percentage, zero exactly when no review is
      positive, and one hundred exactly when all are. */
  lemma OverallPositivePctMeaning(rows: seq<AnnotatedReview>)
    ensures 0.0 <= OverallPositivePct(rows) <= 100.0
    ensures OverallPositivePct(rows) == 0.0 <==> Count(HasLabel(Positive), rows) == 0
    ensures rows != [] ==> (OverallPositivePct(rows) == 100.0 <==> Count(HasLabel(Positive), rows) == |rows|)
  {
    if rows != [] {
      Fraction(Count(HasLabel(Positive), rows) as real, |rows| as real);
    }
  }

  // ---------------------------------------------------------------------
  // The whole report

  /** Everything `generate_recommendations` prints that is computed from
      the data. */
  datatype Report = Report(
    findings: seq<BankFindings>,
    comparison: seq<BankStats>,
    ranking: seq<BankStats>,
    top: BankStats,
    recommendations: seq<(string, seq<string>)>,
    overallPositivePct: real)

  lemma BanksEmptyIff(rows: seq<AnnotatedReview>)
    ensures Banks(rows) == [] <==> rows == []
  {
    if rows != [] {
      assert BankColumn(rows)[0] in Banks(rows);
    }
  }

  /** The report over the recommendation table `base`, or `None` when the
      data is empty and `sorted_banks[0]` raises. */
  function ReportOf(rows: seq<AnnotatedReview>, base: Table): Option<Report>
    requires CoversBanks(base)
  {
    BanksEmptyIff(rows);
    var ranking := SortByRating(Comparison(rows));
    if ranking == [] then None
    else Some(Report(AllFindings(rows), Comparison(rows), ranking, ranking[0],
                     ShownRecommendations(rows, base), OverallPositivePct(rows)))
  }

  /** `generate_recommendations` over the analysed reviews. */
  method GenerateRecommendations(rows: seq<AnnotatedReview>) returns (report: Option<Report>)
    ensures CoversBanks(BaseRecommendations()) && report == ReportOf(rows, BaseRecommendations())
  {
    BaseShape();
    var base := BaseRecommendations();
    var findings := FindDriversAndPainPoints(rows);
    var comparison := BuildComparison(rows);
    var ranking := SortByRating(comparison);
    if ranking == [] {
      return None;
    }
    var recs := AdjustRecommendations(rows, base);
    RecommendationsExact(rows, base, Banks(rows), "");
    var shown := ShowRecommendations(rows, recs);
    report := Some(Report(findings, comparison, ranking, ranking[0], shown, OverallPositivePct(rows)));
  }

  /** A report exists exactly for non-empty data; it covers every bank;
      its ranking is the comparison in descending order of mean rating; and
      its top performer is the first bank of the comparison with the highest
      mean rating. */
  lemma ReportMeaning(rows: seq<AnnotatedReview>, base: Table)
    requires CoversBanks(base)
    ensures ReportOf(rows, base).None? <==> rows == []
    ensures ReportOf(rows, base).Some? ==>
      var r := ReportOf(rows, base).value;
      |r.findings| == |r.comparison| == |Banks(rows)| &&
      Descending(r.ranking) && multiset(r.ranking) == multiset(r.comparison) &&
      r.top in r.comparison &&
      (forall x :: x in r.comparison ==> x.avgRating <= r.top.avgRating) &&
      Filter(WithRating(r.top.avgRating), r.comparison) != [] &&
      Filter(WithRating(r.top.avgRating), r.comparison)[0] == r.top &&
      0.0 <= r.overallPositivePct <= 100.0
  {
    BanksEmptyIff(rows);
    if rows != [] {
      var c := Comparison(rows);
      SortDescending(c);
      SortPermutes(c);
      TopIsFirstBest(c);
      OverallPositivePctMeaning(rows);
    }
  }
}
