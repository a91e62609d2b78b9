/** Loading the COLCAP index series (`load_colcap_csv`,
    analysis/data_sources/colcap_loader.py) on rows already read from CSV:
    the column check, `to_date` on every date cell, dropping rows without a
    date or a close, and sorting by date. */
module ColcapLoader {
  import opened Common
  import opened Text
  import opened DateParse

  /** A row as read from CSV: the `date` cell and the `close` value. */
  datatype PriceRow = PriceRow(date: Cell, close: Option<real>)

  datatype PriceTable = PriceTable(columns: set<string>, rows: seq<PriceRow>)

  /** A kept row: its canonical date key and its closing value. */
  datatype PricePoint = PricePoint(date: string, close: real)

  /** One row through `apply(to_date)` and `dropna(subset=["date", "close"])`. */
  function KeepRow(r: PriceRow): Option<PricePoint>
  {
    var d := ToDate(r.date);
    if d.Some? && r.close.Some? then Some(PricePoint(d.value, r.close.value)) else None
  }

  /** `apply(to_date)` followed by `dropna(subset=["date", "close"])`. */
  function Kept(rows: seq<PriceRow>): seq<PricePoint>
  {
    FilterMap(KeepRow, rows)
  }

  /** Ascending by date; equal dates may come in any order. */
  predicate SortedByDate(s: seq<PricePoint>)
  {
    forall i, j :: 0 <= i < j < |s| ==> !LexLess(s[j].date, s[i].date)
  }

  /** Places `p` before the first row that is not earlier than it. */
  function InsertByDate(p: PricePoint, s: seq<PricePoint>): seq<PricePoint>
  {
    if s == [] then [p]
    else if !LexLess(s[0].date, p.date) then [p] + s
    else [s[0]] + InsertByDate(p, s[1..])
  }

  /** `sort_values("date")`, as an insertion sort. */
  function SortByDate(s: seq<PricePoint>): seq<PricePoint>
  {
    if s == [] then [] else InsertByDate(s[0], SortByDate(s[1..]))
  }

  const MissingColumns := "COLCAP CSV must have 'date' and 'close' columns"

  /** What `load_colcap_csv` returns or raises. */
  function LoadColcapCsv(t: PriceTable): Result<seq<PricePoint>>
  {
    if "date" !in t.columns || "close" !in t.columns then Err(ValueError(MissingColumns))
    else Ok(SortByDate(Kept(t.rows)))
  }

  // ----- properties -----

  /** The kept rows are exactly those `KeepRow` keeps. */
  lemma KeptMembers(rows: seq<PriceRow>)
    ensures forall p :: p in Kept(rows) <==> exists i :: 0 <= i < |rows| && KeepRow(rows[i]) == Some(p)
  {
    FilterMapMembers(KeepRow, rows);
  }

  /** A row is kept exactly when its date parses and its close is present,
      with the parsed date as key and the close unchanged. */
  lemma KeptRows(rows: seq<PriceRow>)
    ensures forall p :: p in Kept(rows) <==>
      exists i :: 0 <= i < |rows| && ToDate(rows[i].date) == Some(p.date) && rows[i].close == Some(p.close)
  {
    KeptMembers(rows);
    forall p: PricePoint | exists i :: 0 <= i < |rows| && ToDate(rows[i].date) == Some(p.date) && rows[i].close == Some(p.close)
      ensures p in Kept(rows)
    {
      var i :| 0 <= i < |rows| && ToDate(rows[i].date) == Some(p.date) && rows[i].close == Some(p.close);
      assert KeepRow(rows[i]) == Some(p);
    }
  }

  /** Every kept date is a canonical `YYYY-MM-DD` key. */
  lemma KeptCanonical(rows: seq<PriceRow>)
    ensures forall p :: p in Kept(rows) ==> IsCanonical(p.date)
  {
    KeptRows(rows);
  }

  lemma {:induction false} InsertByDateMultiset(p: PricePoint, s: seq<PricePoint>)
    ensures multiset(InsertByDate(p, s)) == multiset(s) + multiset{p}
  {
    if s != [] && LexLess(s[0].date, p.date) {
      InsertByDateMultiset(p, s[1..]);
      assert s == [s[0]] + s[1..];
    }
  }

  lemma SortedTail(s: seq<PricePoint>)
    requires s != [] && SortedByDate(s)
    ensures SortedByDate(s[1..])
  {
    forall i, j | 0 <= i < j < |s[1..]|
      ensures !LexLess(s[1..][j].date, s[1..][i].date)
    {
      assert s[1..][i] == s[i + 1] && s[1..][j] == s[j + 1];
    }
  }

  /** The rows from `s[1..]` are all not earlier than `s[0]`. */
  lemma SortedHead(s: seq<PricePoint>, q: PricePoint)
    requires s != [] && SortedByDate(s) && q in multiset(s[1..])
    ensures !LexLess(q.date, s[0].date)
  {
    var k :| 0 <= k < |s[1..]| && s[1..][k] == q;
    assert s[k + 1] == q;
  }

  lemma {:induction false} InsertByDateSorted(p: PricePoint, s: seq<PricePoint>)
    requires SortedByDate(s)
    ensures SortedByDate(InsertByDate(p, s))
  {
    if s == [] {
    } else if !LexLess(s[0].date, p.date) {
      var r := [p] + s;
      forall i, j | 0 <= i < j < |r|
        ensures !LexLess(r[j].date, r[i].date)
      {
        if i == 0 {
          assert r[j] == s[j - 1];
          if j > 1 { LexNotLessTransitive(p.date, s[0].date, s[j - 1].date); }
        } else {
          assert r[i] == s[i - 1] && r[j] == s[j - 1];
        }
      }
    } else {
      var tail := InsertByDate(p, s[1..]);
      SortedTail(s);
      InsertByDateSorted(p, s[1..]);
      InsertByDateMultiset(p, s[1..]);
      var r := [s[0]] + tail;
      LexAsymmetric(s[0].date, p.date);
      forall i, j | 0 <= i < j < |r|
        ensures !LexLess(r[j].date, r[i].date)
      {
        if i == 0 {
          assert r[j] == tail[j - 1];
          assert r[j] in multiset(tail);
          if r[j] != p {
            SortedHead(s, r[j]);
          }
        } else {
          assert r[i] == tail[i - 1] && r[j] == tail[j - 1];
        }
      }
    }
  }

  /** The sort orders the rows by date and neither adds, drops nor duplicates one. */
  lemma {:induction false} SortByDateSpec(s: seq<PricePoint>)
    ensures multiset(SortByDate(s)) == multiset(s)
    ensures SortedByDate(SortByDate(s))
  {
    if s != [] {
      SortByDateSpec(s[1..]);
      InsertByDateMultiset(s[0], SortByDate(s[1..]));
      InsertByDateSorted(s[0], SortByDate(s[1..]));
      assert s == [s[0]] + s[1..];
    }
  }

  /** `load_colcap_csv`: the error exactly when a column is missing;
      otherwise a date-sorted permutation of the kept rows, each with a
      canonical date and an unchanged close. */
  lemma LoadColcapCsvSpec(t: PriceTable)
    ensures LoadColcapCsv(t).Err? <==> "date" !in t.columns || "close" !in t.columns
    ensures LoadColcapCsv(t).Err? ==> LoadColcapCsv(t).error == ValueError("COLCAP CSV must have 'date' and 'close' columns")
    ensures LoadColcapCsv(t).Ok? ==>
      var r := LoadColcapCsv(t).value;
      SortedByDate(r) && multiset(r) == multiset(Kept(t.rows)) &&
      (forall i :: 0 <= i < |r| ==> IsCanonical(r[i].date)) &&
      (forall p :: p in r <==>
        exists i :: 0 <= i < |t.rows| && ToDate(t.rows[i].date) == Some(p.date) && t.rows[i].close == Some(p.close))
  {
    if LoadColcapCsv(t).Ok? {
      var r := LoadColcapCsv(t).value;
      SortByDateSpec(Kept(t.rows));
      KeptRows(t.rows);
      forall p
        ensures p in r <==> p in Kept(t.rows)
      {
        assert p in r <==> p in multiset(r);
      }
      forall i | 0 <= i < |r|
        ensures IsCanonical(r[i].date)
      {
        assert r[i] in r;
      }
    }
  }

  /** No row is dated, in calendar terms, after a row that follows it. */
  predicate Chronological(r: seq<PricePoint>)
  {
    forall i, j :: 0 <= i < j < |r| ==>
      IsCanonical(r[i].date) && IsCanonical(r[j].date) && !Before(IsoDate(r[j].date), IsoDate(r[i].date))
  }

  /** String order on canonical keys is calendar order. */
  lemma SortedChronological(r: seq<PricePoint>)
    requires SortedByDate(r) && forall i :: 0 <= i < |r| ==> IsCanonical(r[i].date)
    ensures Chronological(r)
  {
    forall i, j | 0 <= i < j < |r|
      ensures !Before(IsoDate(r[j].date), IsoDate(r[i].date))
    {
      FormatOrder(IsoDate(r[j].date), IsoDate(r[i].date));
    }
  }

  /** The loaded series is in calendar order. */
  lemma LoadedChronological(t: PriceTable)
    requires LoadColcapCsv(t).Ok?
    ensures Chronological(LoadColcapCsv(t).value)
  {
    LoadColcapCsvSpec(t);
    SortedChronological(LoadColcapCsv(t).value);
  }
}
