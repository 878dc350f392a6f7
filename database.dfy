/** The name resolution and record building of `insert_reviews`
    (src/database.py): the registry of bank names and ids read from the
    `banks` table is keyed by a normalised name, every cleaned review row
    is resolved against it, matched rows become `reviews` records and the
    names that match nothing are collected for one warning. The database
    connection is not modelled: the registry rows come in as a parameter
    and the records go out as the result. */
module Database {
  import opened Records
  import opened Seqs
  import opened Text

  // ---------------------------------------------------------------------
  // `bank_ids = {row[0]: row[1] for row in cur.fetchall()}`

  /** A Python dict from names to ids, as its items in insertion order. */
  type Dict = seq<(string, int)>

  /** The value of the last pair with key `k`. */
  function LastValue(pairs: seq<(string, int)>, k: string): int
    requires k in Firsts(pairs)
    decreases |pairs|
  {
    var last := pairs[|pairs| - 1];
    if last.0 == k then last.1
    else
      assert Firsts(pairs) == Firsts(pairs[..|pairs| - 1]) + [last.0];
      LastValue(pairs[..|pairs| - 1], k)
  }

  /** `d[k] = v`: a new key is appended, an existing key keeps its place
      and takes the new value. */
  function Assign(d: Dict, k: string, v: int): (r: Dict)
    ensures Firsts(r) == if k in Firsts(d) then Firsts(d) else Firsts(d) + [k]
  {
    if k in Firsts(d) then
      var j := IndexOf(Firsts(d), k);
      var r := d[j := (k, v)];
      assert Firsts(r) == Firsts(d) by {
        forall i | 0 <= i < |d| ensures Firsts(r)[i] == Firsts(d)[i] {
        }
      }
      r
    else d + [(k, v)]
  }

  /** After `d[k] = v` on a dict with distinct keys, `k` holds `v` and
      every other entry is unchanged. */
  lemma AssignEntries(d: Dict, k: string, v: int, i: int)
    requires Distinct(Firsts(d)) && 0 <= i < |Assign(d, k, v)|
    ensures Assign(d, k, v)[i].0 == k ==> Assign(d, k, v)[i].1 == v
    ensures Assign(d, k, v)[i].0 != k ==> i < |d| && Assign(d, k, v)[i] == d[i]
  {
    if k in Firsts(d) {
      var j := IndexOf(Firsts(d), k);
      assert Firsts(d)[i] == d[i].0;
    }
  }

  /** `{row[0]: row[1] for row in rows}` */
  function DictFromPairs(pairs: seq<(string, int)>): (d: Dict)
    ensures |d| <= |pairs|
    decreases |pairs|
  {
    if pairs == [] then []
    else
      var last := pairs[|pairs| - 1];
      Assign(DictFromPairs(pairs[..|pairs| - 1]), last.0, last.1)
  }

  /** The dict's keys are the distinct names in order of first
      appearance. */
  lemma {:induction false} DictKeysInFirstOrder(pairs: seq<(string, int)>)
    ensures Firsts(DictFromPairs(pairs)) == Unique(Firsts(pairs))
    decreases |pairs|
  {
    if pairs != [] {
      var init := pairs[..|pairs| - 1];
      DictKeysInFirstOrder(init);
      var ks := Firsts(pairs);
      assert ks[..|ks| - 1] == Firsts(init);
    }
  }

  /** Each key of the dict holds the id of the last pair naming it. */
  lemma {:induction false} DictHoldsLastValue(pairs: seq<(string, int)>, i: int)
    requires 0 <= i < |DictFromPairs(pairs)|
    ensures DictFromPairs(pairs)[i].0 in Firsts(pairs)
    ensures DictFromPairs(pairs)[i].1 == LastValue(pairs, DictFromPairs(pairs)[i].0)
    decreases |pairs|
  {
    var init := pairs[..|pairs| - 1];
    var last := pairs[|pairs| - 1];
    var d := DictFromPairs(init);
    assert Firsts(pairs) == Firsts(init) + [last.0];
    DictKeysInFirstOrder(init);
    AssignEntries(d, last.0, last.1, i);
    if DictFromPairs(pairs)[i].0 != last.0 {
      DictHoldsLastValue(init, i);
    }
  }

  // ---------------------------------------------------------------------
  // `normalized_bank_ids`

  /** `name.lower().strip()`, the registry side of the comparison. */
  function Normalize(name: string): string
  {
    Strip(LowerStr(name))
  }

  /** The dict that re-keys the items of `d` by `key`: later items
      overwrite earlier ones whose keys coincide. */
  function Rekey(d: Dict, key: string -> string): map<string, int>
    decreases |d|
  {
    if d == [] then map[]
    else Rekey(d[..|d| - 1], key)[key(d[|d| - 1].0) := d[|d| - 1].1]
  }

  /** The dict the normalisation loop builds. */
  function NormalizedIds(d: Dict): map<string, int>
  {
    Rekey(d, Normalize)
  }

  /** The loop of lines 99-102. */
  method NormalizeRegistry(bankIds: Dict) returns (normalized: map<string, int>)
    ensures normalized == NormalizedIds(bankIds)
  {
    normalized := map[];
    for i := 0 to |bankIds|
      invariant normalized == Rekey(bankIds[..i], Normalize)
    {
      var (name, bankId) := bankIds[i];
      var normalizedName := Normalize(name);
      normalized := normalized[normalizedName := bankId];
      assert bankIds[..i + 1][..i] == bankIds[..i];
    }
    assert bankIds[..|bankIds|] == bankIds;
  }

  /** Every re-keyed name is present, and nothing else is. */
  lemma {:induction false} RekeyKeys(d: Dict, key: string -> string)
    ensures Rekey(d, key).Keys == set i | 0 <= i < |d| :: key(d[i].0)
    decreases |d|
  {
    if d != [] {
      var init := d[..|d| - 1];
      RekeyKeys(init, key);
      var s := set i | 0 <= i < |d| :: key(d[i].0);
      var t := set i | 0 <= i < |init| :: key(init[i].0);
      forall x | x in s ensures x in t || x == key(d[|d| - 1].0)
      {
        var i :| 0 <= i < |d| && x == key(d[i].0);
        if i < |init| {
          assert init[i] == d[i];
        }
      }
      forall x | x in t ensures x in s
      {
        var i :| 0 <= i < |init| && x == key(init[i].0);
        assert d[i] == init[i];
      }
    }
  }

  /** When two names share a key, the one later in the dict wins. */
  lemma {:induction false} RekeyLaterWins(d: Dict, key: string -> string, i: int)
    requires 0 <= i < |d|
    requires forall j :: i < j < |d| ==> key(d[j].0) != key(d[i].0)
    ensures key(d[i].0) in Rekey(d, key) && Rekey(d, key)[key(d[i].0)] == d[i].1
    decreases |d|
  {
    if i < |d| - 1 {
      var init := d[..|d| - 1];
      assert init[i] == d[i];
      RekeyLaterWins(init, key, i);
    }
  }

  /** Registry names are keyed by `Normalize`; when two of them normalise
      alike, the one later in the dict wins. */
  lemma LaterNameWins(d: Dict, i: int)
    requires 0 <= i < |d|
    requires forall j :: i < j < |d| ==> Normalize(d[j].0) != Normalize(d[i].0)
    ensures Normalize(d[i].0) in NormalizedIds(d) && NormalizedIds(d)[Normalize(d[i].0)] == d[i].1
  {
    RekeyLaterWins(d, Normalize, i);
  }

  // ---------------------------------------------------------------------
  // Resolving a CSV bank name

  /** `str(row['bank']).strip().lower().strip()`, the query side. */
  function QueryKey(bank: string): string
  {
    Strip(LowerStr(Strip(bank)))
  }

  /** The query side normalises exactly as the registry side does, so a
      name always finds its own registry entry. */
  lemma QueryKeyIsNormalize(bank: string)
    ensures QueryKey(bank) == Normalize(bank)
  {
    LowerStrip(bank);
    LowerStrip(Strip(bank));
    StripIdempotent(bank);
  }

  /** `normalized_bank_ids.get(key)` */
  function Lookup(normalized: map<string, int>, bank: string): Option<int>
  {
    var key := QueryKey(bank);
    if key in normalized then Some(normalized[key]) else None
  }

  /** `if bank_id:` holds: the name resolved to an id other than 0. */
  predicate Matched(normalized: map<string, int>, row: Review)
  {
    var id := Lookup(normalized, row.bank);
    id.Some? && id.value != 0
  }

  /** Names equal up to case and surrounding whitespace resolve alike;
      no other relation between names is consulted. */
  lemma LookupIgnoresCaseAndSpace(normalized: map<string, int>, a: string, b: string)
    requires Normalize(a) == Normalize(b)
    ensures Lookup(normalized, a) == Lookup(normalized, b)
  {
    QueryKeyIsNormalize(a);
    QueryKeyIsNormalize(b);
  }

  /** A name resolves exactly when its normalised form is a normalised
      registry name. */
  lemma LookupExact(d: Dict, bank: string)
    ensures Lookup(NormalizedIds(d), bank).Some? <==>
      exists i :: 0 <= i < |d| && Normalize(d[i].0) == Normalize(bank)
  {
    RekeyKeys(d, Normalize);
    QueryKeyIsNormalize(bank);
    if Lookup(NormalizedIds(d), bank).Some? {
      assert QueryKey(bank) in set i | 0 <= i < |d| :: Normalize(d[i].0);
    }
  }

  // ---------------------------------------------------------------------
  // Records

  /** A row of the `reviews` table. */
  datatype Record = Record(
    reviewId: string,
    bankId: int,
    reviewText: string,
    rating: int,
    date: Option<string>,
    sentimentLabel: string,
    sentimentScore: real,
    source: string)

  function FilterMatched(normalized: map<string, int>): Review -> bool
  {
    (row: Review) => Matched(normalized, row)
  }

  /** The record built for a matched row. */
  function ToRecord(normalized: map<string, int>, row: Review): Record
    requires Matched(normalized, row)
  {
    Record(row.reviewId, Lookup(normalized, row.bank).value, PyStr(row.review), row.rating, row.date,
           "unknown", 0.0, "Google Play")
  }

  /** The records: one per matched row, in row order. */
  function RecordsOf(normalized: map<string, int>, rows: seq<Review>): (r: seq<Record>)
    ensures |r| == Count(FilterMatched(normalized), rows)
  {
    var matched := Filter(FilterMatched(normalized), rows);
    FilterSound(FilterMatched(normalized), rows);
    seq(|matched|, k requires 0 <= k < |matched| => ToRecord(normalized, matched[k]))
  }

  /** The names `name(row)` of the rows failing `keep`. */
  function NamesOfRejected(keep: Review -> bool, name: Review -> string, rows: seq<Review>): set<string>
  {
    set i | 0 <= i < |rows| && !keep(rows[i]) :: name(rows[i])
  }

  /** One more row: a rejected row adds its name. */
  lemma NamesOfRejectedSnoc(keep: Review -> bool, name: Review -> string, rows: seq<Review>, i: int)
    requires 0 <= i < |rows|
    ensures NamesOfRejected(keep, name, rows[..i + 1]) ==
      NamesOfRejected(keep, name, rows[..i]) + (if keep(rows[i]) then {} else {name(rows[i])})
  {
    var pre := rows[..i];
    var ext := rows[..i + 1];
    assert ext[..i] == pre && ext[i] == rows[i];
    forall x | x in NamesOfRejected(keep, name, ext)
      ensures x in NamesOfRejected(keep, name, pre) || (!keep(rows[i]) && x == name(rows[i]))
    {
      var j :| 0 <= j < i + 1 && !keep(ext[j]) && x == name(ext[j]);
      if j < i {
        assert ext[j] == pre[j];
      }
    }
    forall x | x in NamesOfRejected(keep, name, pre) ensures x in NamesOfRejected(keep, name, ext)
    {
      var j :| 0 <= j < i && !keep(pre[j]) && x == name(pre[j]);
      assert ext[j] == pre[j];
    }
  }

  function CsvBank(row: Review): string
  {
    Strip(row.bank)
  }

  /** The stripped, case-preserved names of the rows that matched nothing. */
  function UnmatchedOf(normalized: map<string, int>, rows: seq<Review>): set<string>
  {
    NamesOfRejected(FilterMatched(normalized), CsvBank, rows)
  }

  /** What `insert_reviews` decides: the records, the unmatched names,
      whether the warning is printed, whether the insert is executed, and
      the count it returns. */
  datatype Outcome = Outcome(records: seq<Record>, unmatched: set<string>, warned: bool, inserted: bool, count: nat)

  method InsertReviews(registry: seq<(string, int)>, rows: seq<Review>) returns (out: Outcome)
    ensures out.records == RecordsOf(NormalizedIds(DictFromPairs(registry)), rows)
    ensures out.unmatched == UnmatchedOf(NormalizedIds(DictFromPairs(registry)), rows)
    ensures out.warned <==> out.unmatched != {}
    ensures out.inserted <==> out.records != []
    ensures out.count == |out.records|
  {
    var bankIds := DictFromPairs(registry);
    var normalized := NormalizeRegistry(bankIds);
    var records: seq<Record> := [];
    var unmatched: set<string> := {};
    for i := 0 to |rows|
      invariant records == RecordsOf(normalized, rows[..i])
      invariant unmatched == UnmatchedOf(normalized, rows[..i])
    {
      var row := rows[i];
      var csvBank := Strip(row.bank);
      var bankId := Lookup(normalized, row.bank);
      RecordsSnoc(normalized, rows, i);
      NamesOfRejectedSnoc(FilterMatched(normalized), CsvBank, rows, i);
      if bankId.Some? && bankId.value != 0 {
        records := records + [ToRecord(normalized, row)];
      } else {
        unmatched := unmatched + {csvBank};
      }
    }
    assert rows[..|rows|] == rows;
    var warned := unmatched != {};
    var inserted := records != [];
    out := Outcome(records, unmatched, warned, inserted, |records|);
  }

  /** One more row: a matched row adds its record. */
  lemma RecordsSnoc(normalized: map<string, int>, rows: seq<Review>, i: int)
    requires 0 <= i < |rows|
    ensures RecordsOf(normalized, rows[..i + 1]) ==
      RecordsOf(normalized, rows[..i]) + (if Matched(normalized, rows[i]) then [ToRecord(normalized, rows[i])] else [])
  {
    var p := FilterMatched(normalized);
    FilterSnoc(p, rows, i);
    var before := Filter(p, rows[..i]);
    var after := Filter(p, rows[..i + 1]);
    var r0 := RecordsOf(normalized, rows[..i]);
    var r1 := RecordsOf(normalized, rows[..i + 1]);
    assert forall k :: 0 <= k < |before| ==> r1[k] == r0[k];
  }

  /** A row yields a record exactly when it is matched; every record holds
      a matched row's fields, the resolved id and the fixed placeholders. */
  lemma RecordsSound(normalized: map<string, int>, rows: seq<Review>, k: int)
    requires 0 <= k < |RecordsOf(normalized, rows)|
    ensures exists i :: (0 <= i < |rows| && Matched(normalized, rows[i]) &&
                         RecordsOf(normalized, rows)[k] == ToRecord(normalized, rows[i]))
    ensures RecordsOf(normalized, rows)[k].sentimentLabel == "unknown" &&
      RecordsOf(normalized, rows)[k].sentimentScore == 0.0 &&
      RecordsOf(normalized, rows)[k].source == "Google Play"
  {
    var matched := Filter(FilterMatched(normalized), rows);
    FilterSound(FilterMatched(normalized), rows);
    var i :| 0 <= i < |rows| && rows[i] == matched[k];
  }

  lemma RecordsComplete(normalized: map<string, int>, rows: seq<Review>, i: int)
    requires 0 <= i < |rows| && Matched(normalized, rows[i])
    ensures ToRecord(normalized, rows[i]) in RecordsOf(normalized, rows)
  {
    var matched := Filter(FilterMatched(normalized), rows);
    FilterComplete(FilterMatched(normalized), rows, i);
    var k :| 0 <= k < |matched| && matched[k] == rows[i];
    assert RecordsOf(normalized, rows)[k] == ToRecord(normalized, rows[i]);
  }

  /** Records follow the CSV row order: the records of a prefix of the rows
      are a prefix of all the records. */
  lemma RecordsInRowOrder(normalized: map<string, int>, rows: seq<Review>, n: nat)
    requires n <= |rows|
    ensures RecordsOf(normalized, rows[..n]) <= RecordsOf(normalized, rows)
  {
    FilterPrefix(FilterMatched(normalized), rows, n);
  }

  /** A row that matches nothing puts its stripped name in the set; every
      name in the set comes from such a row. */
  lemma UnmatchedExact(normalized: map<string, int>, rows: seq<Review>, name: string)
    ensures name in UnmatchedOf(normalized, rows) <==>
      exists i :: 0 <= i < |rows| && !Matched(normalized, rows[i]) && Strip(rows[i].bank) == name
  {
    if name in UnmatchedOf(normalized, rows) {
      var i :| 0 <= i < |rows| && !FilterMatched(normalized)(rows[i]) && CsvBank(rows[i]) == name;
    }
    if exists i :: 0 <= i < |rows| && !Matched(normalized, rows[i]) && Strip(rows[i].bank) == name {
      var i :| 0 <= i < |rows| && !Matched(normalized, rows[i]) && Strip(rows[i].bank) == name;
      assert CsvBank(rows[i]) == name;
    }
  }

  /** Every row is either recorded or reported: the records and the rows
      behind the unmatched names together account for all rows. */
  lemma {:induction false} RowsAccounted(normalized: map<string, int>, rows: seq<Review>)
    ensures |RecordsOf(normalized, rows)| + Count((row: Review) => !Matched(normalized, row), rows) == |rows|
    decreases |rows|
  {
    if rows != [] {
      RowsAccounted(normalized, rows[..|rows| - 1]);
    }
  }

  // ---------------------------------------------------------------------
  // Consequences for the three banks

  /** One space of padding on each side and the letter case of a name
      do not change what it resolves to. */
  lemma PaddingAndCaseIgnored(normalized: map<string, int>, t: string)
    requires t != [] && !IsSpace(t[0]) && !IsSpace(t[|t| - 1])
    ensures Lookup(normalized, " " + t + " ") == Lookup(normalized, t)
    ensures Lookup(normalized, LowerStr(t)) == Lookup(normalized, t)
  {
    StripPadded(t);
    QueryKeyIsNormalize(t);
    QueryKeyIsNormalize(LowerStr(t));
    LowerStrIdempotent(t);
  }

  /** The three spellings of one bank name resolve to the same id. */
  lemma DashenSpellings(normalized: map<string, int>, padded: string, lower: string, upper: string)
    requires padded == " Dashen Bank " && lower == "dashen bank" && upper == "DASHEN BANK"
    ensures Lookup(normalized, padded) == Lookup(normalized, lower) == Lookup(normalized, upper)
  {
    PaddedDashen(padded, lower);
    CasedDashen(lower, lower);
    CasedDashen(upper, lower);
    LookupIgnoresCaseAndSpace(normalized, padded, lower);
    LookupIgnoresCaseAndSpace(normalized, upper, lower);
  }

  lemma PaddedDashen(padded: string, key: string)
    requires padded == " Dashen Bank " && key == "dashen bank"
    ensures Normalize(padded) == key
  {
    var l := LowerStr(padded);
    forall i | 0 <= i < |l| ensures l[i] == (" " + key + " ")[i] {
    }
    assert l == " " + key + " ";
    StripPadded(key);
  }

  lemma CasedDashen(s: string, key: string)
    requires s in {"dashen bank", "DASHEN BANK"} && key == "dashen bank"
    ensures Normalize(s) == key
  {
    var l := LowerStr(s);
    assert |l| == |key|;
    forall i | 0 <= i < |l| ensures l[i] == key[i] {
    }
    assert l == key;
    StripClean(key);
  }

  /** A name without surrounding whitespace is its own strip. */
  lemma StripClean(t: string)
    requires t != [] && !IsSpace(t[0]) && !IsSpace(t[|t| - 1])
    ensures Strip(t) == t
  {
    TrimLeftIdempotent(t);
    TrimRightIdempotent(t);
  }

  /** One space on each side of such a name is stripped away. */
  lemma StripPadded(t: string)
    requires t != [] && !IsSpace(t[0]) && !IsSpace(t[|t| - 1])
    ensures Strip(" " + t + " ") == t
  {
    var s := " " + t + " ";
    var u := t + " ";
    assert s[1..] == u;
    TrimLeftIdempotent(u);
    assert TrimLeft(s) == u;
    assert u[..|u| - 1] == t;
    assert TrimRight(u) == TrimRight(t);
    TrimRightIdempotent(t);
  }

  /** The dict keeps a name's first position but its last id, and the
      normalisation loop follows the dict's order, not the rows' order:
      with rows ("A", 1), ("a", 2), ("A", 3) the name "a" resolves to 2,
      although the last row naming it carries 3. */
  lemma DictOrderDecides(pairs: seq<(string, int)>)
    requires pairs == [("A", 1), ("a", 2), ("A", 3)]
    ensures NormalizedIds(DictFromPairs(pairs)) == map["a" := 2]
  {
    var d := DictFromPairs(pairs);
    ExampleDict(pairs);
    var a := "a";
    NormalizesTo("A", a);
    NormalizesTo("a", a);
    assert d[..1][..0] == d[..0];
    assert Rekey(d[..1], Normalize) == map[a := 3];
  }

  lemma ExampleDict(pairs: seq<(string, int)>)
    requires pairs == [("A", 1), ("a", 2), ("A", 3)]
    ensures DictFromPairs(pairs) == [("A", 3), ("a", 2)]
  {
    assert pairs[..2][..1] == pairs[..1] && pairs[..1][..0] == pairs[..0];
    assert DictFromPairs(pairs[..1]) == [("A", 1)];
    assert Firsts([("A", 1)]) == ["A"];
    assert DictFromPairs(pairs[..2]) == [("A", 1), ("a", 2)];
    assert Firsts([("A", 1), ("a", 2)]) == ["A", "a"];
  }

  lemma NormalizesTo(s: string, a: string)
    requires s in {"A", "a"} && a == "a"
    ensures Normalize(s) == a
  {
    assert LowerStr(s) == a;
    StripClean(a);
  }
}
