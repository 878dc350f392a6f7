/** Keyword themes of a bank's reviews (src/themes.py): text cleaning before
    keyword extraction, first-match bucketing of keywords into six fixed
    themes with a capacity-limited fallback, and example excerpts per
    theme. The TF-IDF vectorizer is a parameter. */
module Themes {
  import opened Records
  import opened Text
  import opened Seqs

  // ---------------------------------------------------------------------
  // Cleaning (the loop at the start of `extract_keywords`)

  /** `re.sub(r'[^\w\s]', ' ', c)` on one character. */
  function CleanChar(c: char): char
  {
    if IsWordChar(c) || IsSpace(c) then c else ' '
  }

  /** One review as handed to the vectorizer: "" when missing, otherwise
      lower-cased with every character that is neither a word character
      nor whitespace turned into one space. */
  function CleanReview(review: Option<string>): (r: string)
    ensures review.None? ==> r == ""
    ensures review.Some? ==> |r| == |review.value|
    ensures review.Some? ==> forall i :: 0 <= i < |r| ==>
      var c := Lower(review.value[i]);
      (IsWordChar(c) || IsSpace(c) ==> r[i] == c) && (!IsWordChar(c) && !IsSpace(c) ==> r[i] == ' ')
  {
    match review
    case None => ""
    case Some(text) => seq(|text|, i requires 0 <= i < |text| => CleanChar(Lower(text[i])))
  }

  /** Cleaned text holds only lower-case word characters and whitespace. */
  lemma CleanReviewAlphabet(review: Option<string>)
    ensures forall i :: 0 <= i < |CleanReview(review)| ==>
      var c := CleanReview(review)[i];
      !IsUpper(c) && (IsWordChar(c) || IsSpace(c))
  {
  }

  /** Cleaning cleaned text changes nothing. */
  lemma CleanReviewIdempotent(review: Option<string>)
    ensures CleanReview(Some(CleanReview(review))) == CleanReview(review)
  {
    var once := CleanReview(review);
    var twice := CleanReview(Some(once));
    forall i | 0 <= i < |once|
      ensures twice[i] == once[i]
    {
      assert !IsUpper(once[i]) && (IsWordChar(once[i]) || IsSpace(once[i]));
    }
  }

  /** The cleaning loop of `extract_keywords`: one cleaned string per
      review, in order. */
  method CleanReviews(reviews: seq<Option<string>>) returns (clean: seq<string>)
    ensures |clean| == |reviews|
    ensures forall k :: 0 <= k < |reviews| ==> clean[k] == CleanReview(reviews[k])
  {
    clean := [];
    for i := 0 to |reviews|
      invariant |clean| == i
      invariant forall k :: 0 <= k < i ==> clean[k] == CleanReview(reviews[k])
    {
      match reviews[i]
      case None =>
        clean := clean + [""];
      case Some(review) =>
        var text := LowerStr(review);
        text := seq(|text|, j requires 0 <= j < |text| => CleanChar(text[j]));
        clean := clean + [text];
    }
  }

  /** The TF-IDF vectorizer (`fit_transform` then `get_feature_names_out`):
      given the cleaned documents and `max_features`, it yields at most that
      many distinct feature names. Nothing else about it is modelled. */
  type Vectorizer = f: (seq<string>, nat) -> seq<string> |
    forall docs: seq<string>, n: nat :: |f(docs, n)| <= n && Distinct(f(docs, n))
    witness (docs: seq<string>, n: nat) => []

  const DefaultTopN: nat := 20

  /** `extract_keywords(reviews, top_n)`. */
  method ExtractKeywords(reviews: seq<Option<string>>, topN: nat, vectorizer: Vectorizer)
    returns (keywords: seq<string>)
    ensures |keywords| <= topN && Distinct(keywords)
    ensures keywords == Keywords(reviews, topN, vectorizer)
  {
    var clean := CleanReviews(reviews);
    assert clean == CleanAll(reviews);
    keywords := vectorizer(clean, topN);
  }

  function CleanAll(reviews: seq<Option<string>>): seq<string>
  {
    seq(|reviews|, k requires 0 <= k < |reviews| => CleanReview(reviews[k]))
  }

  function Keywords(reviews: seq<Option<string>>, topN: nat, vectorizer: Vectorizer): seq<string>
  {
    vectorizer(CleanAll(reviews), topN)
  }

  // ---------------------------------------------------------------------
  // The taxonomy

  /** Themes are numbered 0..5 in declaration order; `ThemeCount` stands
      for "no theme". */
  const ThemeCount: nat := 6

  /** Keywords a theme takes beyond its signal matches. */
  const Capacity: nat := 5

  function ThemeName(t: nat): string
    requires t < ThemeCount
  {
    match t
    case 0 => "Login & Account Access"
    case 1 => "Transaction & Transfer"
    case 2 => "App Performance"
    case 3 => "User Interface"
    case 4 => "Customer Support"
    case _ => "Feature Requests"
  }

  const LoginWords: seq<string> := ["login", "password", "fingerprint", "access", "account"]
  const TransactionWords: seq<string> := ["transfer", "transaction", "money", "send", "payment"]
  const PerformanceWords: seq<string> := ["slow", "fast", "crash", "error", "bug", "work"]
  const InterfaceWords: seq<string> := ["interface", "design", "easy", "simple", "beautiful"]
  const SupportWords: seq<string> := ["support", "help", "service", "contact"]
  const FeatureWords: seq<string> := ["should", "could", "please", "add", "feature"]

  /** The signal list of theme `t`. */
  function Signals(t: nat): seq<string>
    requires t < ThemeCount
  {
    match t
    case 0 => LoginWords
    case 1 => TransactionWords
    case 2 => PerformanceWords
    case 3 => InterfaceWords
    case 4 => SupportWords
    case _ => FeatureWords
  }

  /** The first theme from `t` on whose signal list has a word occurring in
      the lower-cased keyword `lowered`; `ThemeCount` when none has. */
  function MatchFrom(lowered: string, t: nat): (m: nat)
    requires t <= ThemeCount
    ensures t <= m <= ThemeCount
    decreases ThemeCount - t
  {
    if t == ThemeCount then t
    else if MentionsAny(Signals(t), lowered) then t
    else MatchFrom(lowered, t + 1)
  }

  /** `MatchFrom` finds the first matching theme from `t` on. */
  lemma {:induction false} MatchFromFirst(lowered: string, t: nat)
    requires t <= ThemeCount
    ensures var m := MatchFrom(lowered, t);
      (m < ThemeCount ==> MentionsAny(Signals(m), lowered)) &&
      forall u :: t <= u < m ==> !MentionsAny(Signals(u), lowered)
    decreases ThemeCount - t
  {
    if t < ThemeCount && !MentionsAny(Signals(t), lowered) {
      MatchFromFirst(lowered, t + 1);
    }
  }

  /** The theme a keyword's signal match sends it to (`ThemeCount`: none). */
  function MatchedTheme(keyword: string): nat
  {
    MatchFrom(LowerStr(keyword), 0)
  }

  /** A keyword goes to the first theme, in declaration order, whose signal
      list has a word occurring in the lower-cased keyword; later themes
      are not considered, and `ThemeCount` means no list matched. */
  lemma MatchedThemeIsFirst(keyword: string)
    ensures MatchedTheme(keyword) <= ThemeCount
    ensures MatchedTheme(keyword) < ThemeCount ==> MentionsAny(Signals(MatchedTheme(keyword)), LowerStr(keyword))
    ensures forall u :: 0 <= u < MatchedTheme(keyword) ==> !MentionsAny(Signals(u), LowerStr(keyword))
  {
    MatchFromFirst(LowerStr(keyword), 0);
  }

  /** The first theme holding fewer than `Capacity` keywords, from `t` on. */
  function FirstUnderCapacity(buckets: seq<seq<string>>, t: nat): (f: nat)
    requires |buckets| == ThemeCount && t <= ThemeCount
    ensures t <= f <= ThemeCount
    ensures f < ThemeCount ==> |buckets[f]| < Capacity
    ensures forall u :: t <= u < f ==> |buckets[u]| >= Capacity
    decreases ThemeCount - t
  {
    if t == ThemeCount then t
    else if |buckets[t]| < Capacity then t
    else FirstUnderCapacity(buckets, t + 1)
  }

  /** One step of `group_into_themes`: the keyword joins its matched theme,
      or else the first theme under capacity, or else nothing. */
  function Place(buckets: seq<seq<string>>, keyword: string): (r: seq<seq<string>>)
    requires |buckets| == ThemeCount
    ensures |r| == ThemeCount
  {
    var m := MatchedTheme(keyword);
    if m < ThemeCount then buckets[m := buckets[m] + [keyword]]
    else
      var f := FirstUnderCapacity(buckets, 0);
      if f < ThemeCount then buckets[f := buckets[f] + [keyword]] else buckets
  }

  function EmptyBuckets(): (r: seq<seq<string>>)
    ensures |r| == ThemeCount && forall t :: 0 <= t < ThemeCount ==> r[t] == []
  {
    [[], [], [], [], [], []]
  }

  /** The six keyword lists after placing `keywords` one by one. */
  function Group(keywords: seq<string>): (r: seq<seq<string>>)
    ensures |r| == ThemeCount
    decreases |keywords|
  {
    if keywords == [] then EmptyBuckets()
    else Place(Group(keywords[..|keywords| - 1]), keywords[|keywords| - 1])
  }

  /** A theme with its keywords, as one entry of the returned dict. */
  type NamedTheme = (string, seq<string>)

  function Named(buckets: seq<seq<string>>): (r: seq<NamedTheme>)
    requires |buckets| == ThemeCount
    ensures |r| == ThemeCount
    ensures forall t :: 0 <= t < ThemeCount ==> r[t] == (ThemeName(t), buckets[t])
  {
    seq(ThemeCount, t requires 0 <= t < ThemeCount => (ThemeName(t), buckets[t]))
  }

  function IsNonEmptyTheme(entry: NamedTheme): bool
  {
    entry.1 != []
  }

  /** `{k: v for k, v in themes.items() if v}` */
  function NonEmptyThemes(buckets: seq<seq<string>>): seq<NamedTheme>
    requires |buckets| == ThemeCount
  {
    Filter(IsNonEmptyTheme, Named(buckets))
  }

  /** One pass of the keyword loop of `group_into_themes`: the signal
      checks in theme order, then the search for a theme under capacity. */
  method PlaceKeyword(buckets: seq<seq<string>>, keyword: string) returns (updated: seq<seq<string>>)
    requires |buckets| == ThemeCount
    ensures updated == Place(buckets, keyword)
  {
    var lowered := LowerStr(keyword);
    updated := buckets;
    if MentionsAny(LoginWords, lowered) {
      updated := updated[0 := updated[0] + [keyword]];
    } else if MentionsAny(TransactionWords, lowered) {
      updated := updated[1 := updated[1] + [keyword]];
    } else if MentionsAny(PerformanceWords, lowered) {
      updated := updated[2 := updated[2] + [keyword]];
    } else if MentionsAny(InterfaceWords, lowered) {
      updated := updated[3 := updated[3] + [keyword]];
    } else if MentionsAny(SupportWords, lowered) {
      updated := updated[4 := updated[4] + [keyword]];
    } else if MentionsAny(FeatureWords, lowered) {
      updated := updated[5 := updated[5] + [keyword]];
    } else {
      assert MatchedTheme(keyword) == ThemeCount;
      var t := 0;
      while t < |updated|
        invariant 0 <= t <= ThemeCount
        invariant updated == buckets
        invariant FirstUnderCapacity(buckets, 0) == FirstUnderCapacity(buckets, t)
      {
        if |updated[t]| < Capacity {
          updated := updated[t := updated[t] + [keyword]];
          return;
        }
        t := t + 1;
      }
    }
  }

  /** Grouping one more keyword of a prefix. */
  lemma GroupSnoc(keywords: seq<string>, i: nat)
    requires i < |keywords|
    ensures Group(keywords[..i + 1]) == Place(Group(keywords[..i]), keywords[i])
  {
    assert keywords[..i + 1][..i] == keywords[..i];
  }

  /** `group_into_themes(keywords)`. */
  method GroupIntoThemes(keywords: seq<string>) returns (themes: seq<NamedTheme>)
    ensures themes == NonEmptyThemes(Group(keywords))
  {
    var buckets: seq<seq<string>> := [[], [], [], [], [], []];
    for i := 0 to |keywords|
      invariant buckets == Group(keywords[..i])
    {
      GroupSnoc(keywords, i);
      buckets := PlaceKeyword(buckets, keywords[i]);
    }
    assert keywords[..|keywords|] == keywords;
    themes := NonEmptyThemes(buckets);
  }

  // ---------------------------------------------------------------------
  // Properties of the grouping

  /** What `Place` does, without its matching details: the keyword is
      appended to exactly one theme `j`, or dropped when every theme is at
      capacity and no signal matched. */
  lemma PlaceCases(buckets: seq<seq<string>>, keyword: string) returns (j: nat)
    requires |buckets| == ThemeCount
    ensures j <= ThemeCount
    ensures MatchedTheme(keyword) < ThemeCount ==> j == MatchedTheme(keyword)
    ensures MatchedTheme(keyword) == ThemeCount && j < ThemeCount ==>
      |buckets[j]| < Capacity && forall u :: 0 <= u < j ==> |buckets[u]| >= Capacity
    ensures j < ThemeCount ==> Place(buckets, keyword) == buckets[j := buckets[j] + [keyword]]
    ensures j == ThemeCount ==>
      Place(buckets, keyword) == buckets && forall t :: 0 <= t < ThemeCount ==> |buckets[t]| >= Capacity
  {
    var m := MatchedTheme(keyword);
    if m < ThemeCount {
      j := m;
    } else {
      j := FirstUnderCapacity(buckets, 0);
    }
  }

  /** Every theme keeps its keywords in input order. */
  lemma {:induction false} GroupKeepsOrder(keywords: seq<string>, t: nat)
    requires t < ThemeCount
    ensures IsSubseq(Group(keywords)[t], keywords)
    decreases |keywords|
  {
    if keywords != [] {
      var init := keywords[..|keywords| - 1];
      var kw := keywords[|keywords| - 1];
      var prev := Group(init);
      GroupKeepsOrder(init, t);
      var cur := Group(keywords);
      assert cur == Place(prev, kw);
      if cur[t] == prev[t] {
        assert IsSubseq(cur[t], keywords) by {
          if cur[t] != [] {
            assert keywords[..|keywords| - 1] == init;
          }
        }
      } else {
        assert cur[t] == prev[t] + [kw];
        assert cur[t][..|cur[t]| - 1] == prev[t];
        assert keywords[..|keywords| - 1] == init;
      }
    }
  }

  /** Keywords whose signals match theme `t`. */
  function MatchesTheme(t: nat): string -> bool
  {
    (k: string) => MatchedTheme(k) == t
  }

  /** A keyword that matches a theme's signals always lands in that theme,
      with no capacity limit and in input order: the theme's matched
      keywords are exactly the input's keywords matching it. */
  lemma {:induction false} MatchedKeywordsAllPlaced(keywords: seq<string>, t: nat)
    requires t < ThemeCount
    ensures Filter(MatchesTheme(t), Group(keywords)[t]) == Filter(MatchesTheme(t), keywords)
    decreases |keywords|
  {
    if keywords != [] {
      var init := keywords[..|keywords| - 1];
      var kw := keywords[|keywords| - 1];
      var prev := Group(init);
      MatchedKeywordsAllPlaced(init, t);
      var j := PlaceCases(prev, kw);
      assert Group(keywords) == Place(prev, kw);
      var cur := Group(keywords)[t];
      if j == t {
        assert cur == prev[t] + [kw];
        assert cur[..|cur| - 1] == prev[t];
      } else {
        assert cur == prev[t];
      }
    }
  }

  /** A theme holds only keywords that match it or match no theme at all:
      a signal match is never overridden by the fallback. */
  lemma {:induction false} ThemeMembers(keywords: seq<string>, t: nat)
    requires t < ThemeCount
    ensures forall k :: k in Group(keywords)[t] ==> MatchedTheme(k) == t || MatchedTheme(k) == ThemeCount
    decreases |keywords|
  {
    if keywords != [] {
      var init := keywords[..|keywords| - 1];
      var kw := keywords[|keywords| - 1];
      var prev := Group(init);
      ThemeMembers(init, t);
      var j := PlaceCases(prev, kw);
      assert Group(keywords) == Place(prev, kw);
      if j == t {
        assert Group(keywords)[t] == prev[t] + [kw];
      } else {
        assert Group(keywords)[t] == prev[t];
      }
    }
  }

  function IsUnmatched(k: string): bool
  {
    MatchedTheme(k) == ThemeCount
  }

  /** The fallback fills a theme only while it holds fewer than five
      keywords, so no theme takes more than five unmatched keywords. */
  lemma {:induction false} FallbackWithinCapacity(keywords: seq<string>, t: nat)
    requires t < ThemeCount
    ensures Count(IsUnmatched, Group(keywords)[t]) <= Capacity
    decreases |keywords|
  {
    if keywords != [] {
      var init := keywords[..|keywords| - 1];
      var kw := keywords[|keywords| - 1];
      var prev := Group(init);
      FallbackWithinCapacity(init, t);
      var j := PlaceCases(prev, kw);
      assert Group(keywords) == Place(prev, kw);
      var cur := Group(keywords)[t];
      if j == t {
        assert cur == prev[t] + [kw];
        assert cur[..|cur| - 1] == prev[t];
        if IsUnmatched(kw) {
          assert |prev[t]| < Capacity;
          assert Count(IsUnmatched, cur) == Count(IsUnmatched, prev[t]) + 1;
        }
      } else {
        assert cur == prev[t];
      }
    }
  }

  /** All keyword lists, concatenated in theme order. */
  function Flatten(buckets: seq<seq<string>>): seq<string>
    decreases |buckets|
  {
    if buckets == [] then [] else Flatten(buckets[..|buckets| - 1]) + buckets[|buckets| - 1]
  }

  lemma {:induction false} FlattenAppend(buckets: seq<seq<string>>, j: nat, kw: string)
    requires j < |buckets|
    ensures multiset(Flatten(buckets[j := buckets[j] + [kw]])) == multiset(Flatten(buckets)) + multiset{kw}
    decreases |buckets|
  {
    var n := |buckets|;
    var updated := buckets[j := buckets[j] + [kw]];
    assert updated[..n - 1] == if j == n - 1 then buckets[..n - 1] else buckets[..n - 1][j := buckets[j] + [kw]];
    if j < n - 1 {
      FlattenAppend(buckets[..n - 1], j, kw);
    }
  }

  lemma {:induction false} FlattenAllEmpty(buckets: seq<seq<string>>)
    requires forall t :: 0 <= t < |buckets| ==> buckets[t] == []
    ensures Flatten(buckets) == []
    decreases |buckets|
  {
    if buckets != [] {
      FlattenAllEmpty(buckets[..|buckets| - 1]);
    }
  }

  lemma {:induction false} FlattenAtLeast(buckets: seq<seq<string>>, c: nat)
    requires forall t :: 0 <= t < |buckets| ==> |buckets[t]| >= c
    ensures |Flatten(buckets)| >= c * |buckets|
    decreases |buckets|
  {
    if buckets != [] {
      FlattenAtLeast(buckets[..|buckets| - 1], c);
    }
  }

  /** One placement adds the keyword to the themes' contents, or drops it
      when all six themes already hold thirty keywords between them. */
  lemma PlaceMultiset(buckets: seq<seq<string>>, keyword: string) returns (dropped: bool)
    requires |buckets| == ThemeCount
    ensures !dropped ==> multiset(Flatten(Place(buckets, keyword))) == multiset(Flatten(buckets)) + multiset{keyword}
    ensures !dropped ==> |Flatten(Place(buckets, keyword))| == |Flatten(buckets)| + 1
    ensures dropped ==> Place(buckets, keyword) == buckets && |Flatten(buckets)| >= ThemeCount * Capacity
  {
    var j := PlaceCases(buckets, keyword);
    dropped := j == ThemeCount;
    if dropped {
      FlattenAtLeast(buckets, Capacity);
    } else {
      var after := buckets[j := buckets[j] + [keyword]];
      FlattenAppend(buckets, j, keyword);
      assert |multiset(Flatten(after))| == |multiset(Flatten(buckets))| + 1;
    }
  }

  /** Every keyword lands in at most one theme: across all themes a keyword
      occurs no more often than in the input. With at most thirty keywords
      (six themes of capacity five) every keyword is placed exactly once. */
  lemma {:induction false} GroupPlacesEachOnce(keywords: seq<string>)
    ensures multiset(Flatten(Group(keywords))) <= multiset(keywords)
    ensures |keywords| <= ThemeCount * Capacity ==> multiset(Flatten(Group(keywords))) == multiset(keywords)
    ensures |Flatten(Group(keywords))| <= |keywords|
    decreases |keywords|
  {
    if keywords == [] {
      FlattenAllEmpty(EmptyBuckets());
    } else {
      var init := keywords[..|keywords| - 1];
      var kw := keywords[|keywords| - 1];
      GroupPlacesEachOnce(init);
      var dropped := GroupStep(keywords);
      PlacedStep(keywords, Flatten(Group(init)), Flatten(Group(keywords)), dropped);
    }
  }

  /** Placing the last keyword adds it to the flattened themes, or drops
      it when they already hold thirty keywords. */
  lemma GroupStep(keywords: seq<string>) returns (dropped: bool)
    requires keywords != []
    ensures var prev := Flatten(Group(keywords[..|keywords| - 1]));
      var next := Flatten(Group(keywords));
      (!dropped ==> multiset(next) == multiset(prev) + multiset{keywords[|keywords| - 1]} && |next| == |prev| + 1) &&
      (dropped ==> next == prev && |prev| >= ThemeCount * Capacity)
  {
    dropped := PlaceMultiset(Group(keywords[..|keywords| - 1]), keywords[|keywords| - 1]);
  }

  /** The counting step of `GroupPlacesEachOnce`, on the flattened themes
      before (`prev`) and after (`next`) placing the last keyword. */
  lemma PlacedStep(keywords: seq<string>, prev: seq<string>, next: seq<string>, dropped: bool)
    requires keywords != []
    requires var init := keywords[..|keywords| - 1];
      multiset(prev) <= multiset(init) && |prev| <= |init| &&
      (|init| <= ThemeCount * Capacity ==> multiset(prev) == multiset(init))
    requires !dropped ==> multiset(next) == multiset(prev) + multiset{keywords[|keywords| - 1]} && |next| == |prev| + 1
    requires dropped ==> next == prev && |prev| >= ThemeCount * Capacity
    ensures multiset(next) <= multiset(keywords) && |next| <= |keywords|
    ensures |keywords| <= ThemeCount * Capacity ==> multiset(next) == multiset(keywords)
  {
    var init := keywords[..|keywords| - 1];
    assert keywords == init + [keywords[|keywords| - 1]];
    assert multiset(keywords) == multiset(init) + multiset{keywords[|keywords| - 1]};
  }

  /** The returned themes are exactly the non-empty ones, in declaration
      order, each with its full keyword list. */
  lemma NonEmptyThemesExact(buckets: seq<seq<string>>)
    requires |buckets| == ThemeCount
    ensures forall e :: e in NonEmptyThemes(buckets) ==> e.1 != [] && e in Named(buckets)
    ensures forall t :: 0 <= t < ThemeCount && buckets[t] != [] ==> (ThemeName(t), buckets[t]) in NonEmptyThemes(buckets)
    ensures IsSubseq(NonEmptyThemes(buckets), Named(buckets))
  {
    var named := Named(buckets);
    FilterSound(IsNonEmptyTheme, named);
    FilterIsSubseq(IsNonEmptyTheme, named);
    forall t | 0 <= t < ThemeCount && buckets[t] != []
      ensures (ThemeName(t), buckets[t]) in NonEmptyThemes(buckets)
    {
      FilterComplete(IsNonEmptyTheme, named, t);
    }
  }

  // ---------------------------------------------------------------------
  // Example excerpts (the inner loops of `analyze_themes_by_bank`)

  const ExcerptLength: nat := 80

  /** `s[:80] + "..." if len(s) > 80 else s` */
  function Shorten(s: string): (r: string)
    ensures |s| <= ExcerptLength ==> r == s
    ensures |s| > ExcerptLength ==>
      |r| == ExcerptLength + 3 && r[..ExcerptLength] == s[..ExcerptLength] && r[ExcerptLength..] == "..."
  {
    if |s| > ExcerptLength then s[..ExcerptLength] + "..." else s
  }

  /** An excerpt is never longer than 83 characters and always starts with
      the text it was cut from. */
  lemma ShortenBounds(s: string)
    ensures |Shorten(s)| <= ExcerptLength + 3
    ensures |s| <= ExcerptLength ==> Shorten(s) == s
    ensures |s| > ExcerptLength ==> Shorten(s) != s[..ExcerptLength] && Shorten(s)[..ExcerptLength] == s[..ExcerptLength]
  {
  }

  /** `any(keyword in str(review).lower() for keyword in keywords)` */
  function MentionsKeyword(keywords: seq<string>): Option<string> -> bool
  {
    (review: Option<string>) => MentionsAny(keywords, LowerStr(PyStr(review)))
  }

  /** Reviews among the first 20 whose text mentions one of the theme's
      first three keywords, in order. */
  function ExampleHits(reviews: seq<Option<string>>, themeKeywords: seq<string>): seq<Option<string>>
  {
    Filter(MentionsKeyword(Take(themeKeywords, 3)), Take(reviews, 20))
  }

  function Excerpts(hits: seq<Option<string>>): (r: seq<string>)
    ensures |r| == |hits|
    ensures forall i :: 0 <= i < |hits| ==> r[i] == Shorten(PyStr(hits[i]))
  {
    seq(|hits|, i requires 0 <= i < |hits| => Shorten(PyStr(hits[i])))
  }

  lemma ExcerptsSnoc(hits: seq<Option<string>>, review: Option<string>)
    ensures Excerpts(hits + [review]) == Excerpts(hits) + [Shorten(PyStr(review))]
  {
  }

  /** The examples of one theme: the first two hits, shortened. */
  function Examples(reviews: seq<Option<string>>, themeKeywords: seq<string>): seq<string>
  {
    Excerpts(Take(ExampleHits(reviews, themeKeywords), 2))
  }

  /** Reading one more review adds its excerpt exactly when it is a hit. */
  lemma ExcerptsStep(mentions: Option<string> -> bool, pool: seq<Option<string>>, i: nat)
    requires i < |pool|
    ensures Excerpts(Filter(mentions, pool[..i + 1])) ==
      Excerpts(Filter(mentions, pool[..i])) + (if mentions(pool[i]) then [Shorten(PyStr(pool[i]))] else [])
  {
    FilterSnoc(mentions, pool, i);
    if mentions(pool[i]) {
      ExcerptsSnoc(Filter(mentions, pool[..i]), pool[i]);
    }
  }

  /** Once the hits among the first `n` reviews of `pool` number two, or
      once all of `pool` is read, they are the first two hits. */
  lemma FirstTwoOfPrefix(mentions: Option<string> -> bool, pool: seq<Option<string>>, n: nat)
    requires n <= |pool|
    requires |Filter(mentions, pool[..n])| == 2 || (n == |pool| && |Filter(mentions, pool[..n])| < 2)
    ensures Take(Filter(mentions, pool), 2) == Filter(mentions, pool[..n])
  {
    FilterPrefix(mentions, pool, n);
    if n == |pool| {
      assert pool[..n] == pool;
    }
  }

  /** The example loop: scan `pool`, keep the shortened text of each review
      that `mentions` accepts, stop after two. */
  method FirstTwoExcerpts(pool: seq<Option<string>>, mentions: Option<string> -> bool) returns (examples: seq<string>)
    ensures examples == Excerpts(Take(Filter(mentions, pool), 2))
  {
    examples := [];
    for i := 0 to |pool|
      invariant examples == Excerpts(Filter(mentions, pool[..i]))
      invariant |examples| < 2
    {
      var review := pool[i];
      ExcerptsStep(mentions, pool, i);
      if mentions(review) {
        examples := examples + [Shorten(PyStr(review))];
        if |examples| >= 2 {
          FirstTwoOfPrefix(mentions, pool, i + 1);
          return;
        }
      }
    }
    FirstTwoOfPrefix(mentions, pool, |pool|);
  }

  /** The examples of one theme: the loop over the first 20 reviews with
      the test "mentions one of the first three keywords". */
  method PickExamples(reviews: seq<Option<string>>, themeKeywords: seq<string>) returns (examples: seq<string>)
    ensures examples == Examples(reviews, themeKeywords)
  {
    examples := FirstTwoExcerpts(Take(reviews, 20), MentionsKeyword(Take(themeKeywords, 3)));
  }

  /** At most two examples per theme, each the shortened text of one of the
      first 20 reviews that mentions one of the theme's first three
      keywords, taken in review order. */
  lemma ExamplesSound(reviews: seq<Option<string>>, themeKeywords: seq<string>)
    ensures |Examples(reviews, themeKeywords)| <= 2
    ensures forall k :: 0 <= k < |Examples(reviews, themeKeywords)| ==>
      exists i :: (0 <= i < |reviews| && i < 20 &&
        MentionsAny(Take(themeKeywords, 3), LowerStr(PyStr(reviews[i]))) &&
        Examples(reviews, themeKeywords)[k] == Shorten(PyStr(reviews[i])))
    ensures IsSubseq(Take(ExampleHits(reviews, themeKeywords), 2), Take(reviews, 20))
  {
    var pool := Take(reviews, 20);
    var mentions := MentionsKeyword(Take(themeKeywords, 3));
    var hits := ExampleHits(reviews, themeKeywords);
    FilterSound(mentions, pool);
    FilterIsSubseq(mentions, pool);
    var shown := Take(hits, 2);
    forall k | 0 <= k < |shown|
      ensures exists i :: (0 <= i < |reviews| && i < 20 &&
        MentionsAny(Take(themeKeywords, 3), LowerStr(PyStr(reviews[i]))) &&
        Examples(reviews, themeKeywords)[k] == Shorten(PyStr(reviews[i])))
    {
      assert shown[k] == hits[k] && hits[k] in pool;
      var i :| 0 <= i < |pool| && pool[i] == hits[k];
      assert pool[i] == reviews[i];
    }
    assert IsSubseq(shown, hits) by {
      FilterPrefix(mentions, pool, |pool|);
      PrefixIsSubseq(shown, hits);
    }
    SubseqTrans(shown, hits, pool);
  }

  /** Fewer than two examples means none was skipped: every mentioning
      review among the first 20 is represented. */
  lemma ExamplesComplete(reviews: seq<Option<string>>, themeKeywords: seq<string>, i: int)
    requires 0 <= i < |reviews| && i < 20
    requires MentionsAny(Take(themeKeywords, 3), LowerStr(PyStr(reviews[i])))
    requires |Examples(reviews, themeKeywords)| < 2
    ensures Shorten(PyStr(reviews[i])) in Examples(reviews, themeKeywords)
  {
    var pool := Take(reviews, 20);
    var hits := ExampleHits(reviews, themeKeywords);
    assert pool[i] == reviews[i];
    FilterComplete(MentionsKeyword(Take(themeKeywords, 3)), pool, i);
    var k :| 0 <= k < |hits| && hits[k] == reviews[i];
    assert Take(hits, 2) == hits;
  }

  // ---------------------------------------------------------------------
  // Per-bank analysis (`analyze_themes_by_bank`)

  /** What the analysis records for one bank: its non-empty themes with
      their keywords, and the example excerpts of each theme by name. */
  datatype BankThemes = BankThemes(themes: seq<NamedTheme>, examples: seq<(string, seq<string>)>)

  function ReviewBanks(rows: seq<Review>): (r: seq<string>)
    ensures |r| == |rows| && forall k :: 0 <= k < |rows| ==> r[k] == rows[k].bank
  {
    seq(|rows|, k requires 0 <= k < |rows| => rows[k].bank)
  }

  function OfBank(bank: string): Review -> bool
  {
    (r: Review) => r.bank == bank
  }

  /** `df[df['bank'] == bank]['review'].tolist()` */
  function ReviewsOf(rows: seq<Review>, bank: string): seq<Option<string>>
  {
    var mine := Filter(OfBank(bank), rows);
    seq(|mine|, k requires 0 <= k < |mine| => mine[k].review)
  }

  /** The examples of every theme, in theme order. */
  function ThemeExamples(reviews: seq<Option<string>>, themes: seq<NamedTheme>): (r: seq<(string, seq<string>)>)
    ensures |r| == |themes|
    ensures forall k :: 0 <= k < |themes| ==> r[k] == (themes[k].0, Examples(reviews, themes[k].1))
  {
    seq(|themes|, k requires 0 <= k < |themes| => (themes[k].0, Examples(reviews, themes[k].1)))
  }

  /** What `analyze_themes_by_bank` records for `bank`. */
  function AnalysisOf(rows: seq<Review>, bank: string, vectorizer: Vectorizer): BankThemes
  {
    var reviews := ReviewsOf(rows, bank);
    var themes := NonEmptyThemes(Group(Keywords(reviews, DefaultTopN, vectorizer)));
    BankThemes(themes, ThemeExamples(reviews, themes))
  }

  /** The examples of one more theme of a prefix. */
  lemma ThemeExamplesSnoc(reviews: seq<Option<string>>, themes: seq<NamedTheme>, k: nat)
    requires k < |themes|
    ensures ThemeExamples(reviews, themes[..k + 1]) ==
      ThemeExamples(reviews, themes[..k]) + [(themes[k].0, Examples(reviews, themes[k].1))]
  {
    var longer := ThemeExamples(reviews, themes[..k + 1]);
    var shorter := ThemeExamples(reviews, themes[..k]);
    assert forall j :: 0 <= j < k ==> longer[j] == shorter[j];
  }

  /** The per-theme example loop for one bank. */
  method CollectExamples(reviews: seq<Option<string>>, themes: seq<NamedTheme>)
    returns (examples: seq<(string, seq<string>)>)
    ensures examples == ThemeExamples(reviews, themes)
  {
    examples := [];
    for k := 0 to |themes|
      invariant examples == ThemeExamples(reviews, themes[..k])
    {
      ThemeExamplesSnoc(reviews, themes, k);
      var picked := PickExamples(reviews, themes[k].1);
      examples := examples + [(themes[k].0, picked)];
    }
    assert themes[..|themes|] == themes;
  }

  /** The body of the bank loop of `analyze_themes_by_bank`. */
  method AnalyzeBank(rows: seq<Review>, bank: string, vectorizer: Vectorizer) returns (analysis: BankThemes)
    ensures analysis == AnalysisOf(rows, bank, vectorizer)
  {
    var bankReviews := ReviewsOf(rows, bank);
    var keywords := ExtractKeywords(bankReviews, DefaultTopN, vectorizer);
    var themes := GroupIntoThemes(keywords);
    var examples := CollectExamples(bankReviews, themes);
    analysis := BankThemes(themes, examples);
  }

  /** `df['bank'].unique()` lists exactly the banks that occur. */
  lemma UniqueBanks(rows: seq<Review>, bank: string)
    ensures bank in Unique(ReviewBanks(rows)) <==> exists k :: 0 <= k < |rows| && rows[k].bank == bank
  {
    var banks := ReviewBanks(rows);
    if exists k :: 0 <= k < |rows| && rows[k].bank == bank {
      var k :| 0 <= k < |rows| && rows[k].bank == bank;
      assert banks[k] == bank;
    }
    if bank in Unique(banks) {
      assert bank in banks;
      var k :| 0 <= k < |rows| && banks[k] == bank;
    }
  }

  /** `analyze_themes_by_bank(df)`: one entry per bank, in the order in
      which `unique()` lists the banks, as the dict is filled. */
  method AnalyzeThemesByBank(rows: seq<Review>, vectorizer: Vectorizer) returns (bankThemes: seq<(string, BankThemes)>)
    ensures Firsts(bankThemes) == Unique(ReviewBanks(rows))
    ensures forall bank :: bank in Firsts(bankThemes) <==> exists k :: 0 <= k < |rows| && rows[k].bank == bank
    ensures forall i :: 0 <= i < |bankThemes| ==> bankThemes[i].1 == AnalysisOf(rows, bankThemes[i].0, vectorizer)
  {
    var banks := Unique(ReviewBanks(rows));
    bankThemes := [];
    for b := 0 to |banks|
      invariant |bankThemes| == b
      invariant forall i :: 0 <= i < b ==> bankThemes[i] == (banks[i], AnalysisOf(rows, banks[i], vectorizer))
    {
      var analysis := AnalyzeBank(rows, banks[b], vectorizer);
      bankThemes := bankThemes + [(banks[b], analysis)];
    }
    assert Firsts(bankThemes) == banks;
    forall bank
      ensures bank in banks <==> exists k :: 0 <= k < |rows| && rows[k].bank == bank
    {
      UniqueBanks(rows, bank);
    }
  }
}
