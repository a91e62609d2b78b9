/** The pandas engine (analysis/engine/backends/pandas_engine.py): loading
    the news and the index series from rows already read from CSV, and the
    inner join on `date`. Its `compute_correlations` is
    `Correlations.ComputeCorrelations`. */
module PandasEngine {
  import opened Common
  import opened Text
  import opened DateParse
  import opened NewsFeatures
  import opened ColcapLoader
  import opened Correlations

  // ----- load_news -----

  /** A news row as read from CSV, before its `fecha` cell is parsed. */
  datatype RawNewsRow = RawNewsRow(url: Option<string>, fecha: Cell, texto: Option<string>, longitud: Option<real>)

  datatype RawNewsTable = RawNewsTable(columns: set<string>, rows: seq<RawNewsRow>)

  /** The row with its `fecha` replaced by the value the parser gives. */
  function WithDate(r: RawNewsRow, d: Option<string>): NewsRow
  {
    NewsRow(r.url, d, r.texto, r.longitud)
  }

  /** Parsing every `fecha` cell with `parse`, then `dropna(subset=["fecha"])`.
      Both engines do this; they differ only in the parser. */
  function ParseDates(rows: seq<RawNewsRow>, parse: Cell -> Option<string>): seq<NewsRow>
  {
    if rows == [] then []
    else
      var d := parse(rows[0].fecha);
      (if d.Some? then [WithDate(rows[0], d)] else []) + ParseDates(rows[1..], parse)
  }

  /** What `load_news` returns or raises: `df["fecha"].apply(to_date)`, then
      the drop. */
  function LoadNews(t: RawNewsTable): Result<NewsTable>
  {
    if "fecha" !in t.columns then Err(KeyError("fecha"))
    else Ok(NewsTable(t.columns, ParseDates(t.rows, ToDate)))
  }

  /** The rows of `kept` with their parsed dates, in order. */
  function Normalized(kept: seq<RawNewsRow>, parse: Cell -> Option<string>): (r: seq<NewsRow>)
    ensures |r| == |kept|
  {
    seq(|kept|, i requires 0 <= i < |kept| => WithDate(kept[i], parse(kept[i].fecha)))
  }

  lemma NormalizedCons(r: RawNewsRow, rest: seq<RawNewsRow>, parse: Cell -> Option<string>)
    ensures Normalized([r] + rest, parse) == [WithDate(r, parse(r.fecha))] + Normalized(rest, parse)
  {
    var a, b := Normalized([r] + rest, parse), [WithDate(r, parse(r.fecha))] + Normalized(rest, parse);
    forall i | 0 <= i < |a|
      ensures a[i] == b[i]
    {
      if i > 0 { assert ([r] + rest)[i] == rest[i - 1]; }
    }
  }

  /** The rows whose `fecha` the parser accepts. */
  function Parsable(rows: seq<RawNewsRow>, parse: Cell -> Option<string>): (kept: seq<RawNewsRow>)
    ensures forall i :: 0 <= i < |kept| ==> kept[i] in rows && parse(kept[i].fecha).Some?
    ensures forall i :: 0 <= i < |rows| && parse(rows[i].fecha).Some? ==> rows[i] in kept
  {
    Filter(rows, (r: RawNewsRow) => parse(r.fecha).Some?)
  }

  /** Parsing then dropping equals keeping the rows whose date parses and
      rewriting each date: the order is kept and the other cells are untouched. */
  lemma {:induction false} ParseDatesFilter(rows: seq<RawNewsRow>, parse: Cell -> Option<string>)
    ensures ParseDates(rows, parse) == Normalized(Parsable(rows, parse), parse)
  {
    if rows != [] {
      ParseDatesFilter(rows[1..], parse);
      var rest := Parsable(rows[1..], parse);
      if parse(rows[0].fecha).Some? {
        assert Parsable(rows, parse) == [rows[0]] + rest;
        NormalizedCons(rows[0], rest, parse);
      } else {
        assert Parsable(rows, parse) == rest;
      }
    }
  }

  /** Parsers that agree on every cell give the same rows. */
  lemma {:induction false} ParseDatesCongruent(rows: seq<RawNewsRow>, p1: Cell -> Option<string>, p2: Cell -> Option<string>)
    requires forall c :: p1(c) == p2(c)
    ensures ParseDates(rows, p1) == ParseDates(rows, p2)
  {
    if rows != [] {
      ParseDatesCongruent(rows[1..], p1, p2);
    }
  }

  /** `load_news` raises `KeyError` exactly when `fecha` is missing; it keeps
      exactly the rows whose `fecha` parses, in order, each with its date in
      canonical form and its other cells unchanged. */
  lemma LoadNewsSpec(t: RawNewsTable)
    ensures LoadNews(t).Err? <==> "fecha" !in t.columns
    ensures LoadNews(t).Err? ==> LoadNews(t).error == KeyError("fecha")
    ensures LoadNews(t).Ok? ==>
      var kept := Parsable(t.rows, ToDate);
      var out := LoadNews(t).value;
      out.columns == t.columns && |out.rows| == |kept| &&
      forall i :: 0 <= i < |kept| ==>
        out.rows[i].fecha.Some? && out.rows[i].fecha == ToDate(kept[i].fecha) && IsCanonical(out.rows[i].fecha.value) &&
        out.rows[i].url == kept[i].url && out.rows[i].texto == kept[i].texto && out.rows[i].longitud == kept[i].longitud
  {
    ParseDatesFilter(t.rows, ToDate);
  }

  // ----- load_colcap -----

  const MissingPriceColumns := "COLCAP CSV must contain 'date' and 'close' columns"

  /** What `load_colcap` returns or raises. */
  function LoadColcap(t: PriceTable): Result<seq<PricePoint>>
  {
    if "date" !in t.columns || "close" !in t.columns then Err(ValueError(MissingPriceColumns))
    else Ok(SortByDate(Kept(t.rows)))
  }

  /** The engine's loader agrees with `load_colcap_csv` on every table: the
      same rows on success, and a `ValueError` in the same cases (only the
      message differs). */
  lemma LoadColcapAgrees(t: PriceTable)
    ensures LoadColcap(t).Ok? <==> LoadColcapCsv(t).Ok?
    ensures LoadColcap(t).Ok? ==> LoadColcap(t).value == LoadColcapCsv(t).value
    ensures LoadColcap(t).Err? ==>
      LoadColcap(t).error == ValueError("COLCAP CSV must contain 'date' and 'close' columns") &&
      LoadColcapCsv(t).error.ValueError?
  {
  }

  // ----- align_series -----

  /** A row of the joined table: `index` (the feature row's position, absent
      when the engine does not reset the index), `date`, the three features
      and `close`. */
  datatype JoinedRow = JoinedRow(index: Option<nat>, date: string, articleCount: nat, avgLength: Float, sentimentMean: Float, close: real)

  function Combine(index: Option<nat>, l: FeatureRow, p: PricePoint): JoinedRow
  {
    JoinedRow(index, l.date, l.articleCount, l.avgLength, l.sentimentMean, p.close)
  }

  /** The joined rows of one left row: one per right row with its date, in
      right order. */
  function Matches(index: Option<nat>, l: FeatureRow, right: seq<PricePoint>): seq<JoinedRow>
  {
    if right == [] then []
    else (if right[0].date == l.date then [Combine(index, l, right[0])] else []) + Matches(index, l, right[1..])
  }

  function IndexOf(withIndex: bool, i: nat): Option<nat>
  {
    if withIndex then Some(i) else None
  }

  /** The inner join of `left` (whose first row is at position `start`) with
      `right` on `date`, in left order. */
  function JoinFrom(left: seq<FeatureRow>, right: seq<PricePoint>, start: nat, withIndex: bool): seq<JoinedRow>
  {
    if left == [] then []
    else Matches(IndexOf(withIndex, start), left[0], right) + JoinFrom(left[1..], right, start + 1, withIndex)
  }

  /** `merge(news_features_df.rename_axis(None).reset_index(), colcap_df,
      on="date", how="inner")`. */
  function Align(left: seq<FeatureRow>, right: seq<PricePoint>): seq<JoinedRow>
  {
    JoinFrom(left, right, 0, true)
  }

  /** The columns of the joined table, in order. */
  function JoinedColumns(withIndex: bool): seq<string>
  {
    (if withIndex then ["index"] else []) + ["date", "article_count", "avg_length", "sentiment_mean", "close"]
  }

  /** The joined rows seen as a table with its numeric columns. */
  function JoinedFrame(rows: seq<JoinedRow>, withIndex: bool): (f: Frame)
    ensures WellFormed(f)
  {
    var n := |rows|;
    Frame(JoinedColumns(withIndex),
      map[
        "article_count" := seq(n, i requires 0 <= i < n => Finite(rows[i].articleCount as real)),
        "avg_length" := seq(n, i requires 0 <= i < n => rows[i].avgLength),
        "sentiment_mean" := seq(n, i requires 0 <= i < n => rows[i].sentimentMean),
        "close" := seq(n, i requires 0 <= i < n => Finite(rows[i].close))],
      n)
  }

  // ----- properties of the join -----

  lemma {:induction false} MatchesMembers(index: Option<nat>, l: FeatureRow, right: seq<PricePoint>)
    ensures forall r :: r in Matches(index, l, right) <==>
      exists j :: 0 <= j < |right| && right[j].date == l.date && r == Combine(index, l, right[j])
  {
    if right != [] {
      MatchesMembers(index, l, right[1..]);
      var head := if right[0].date == l.date then [Combine(index, l, right[0])] else [];
      assert Matches(index, l, right) == head + Matches(index, l, right[1..]);
      forall r | r in Matches(index, l, right)
        ensures exists j :: 0 <= j < |right| && right[j].date == l.date && r == Combine(index, l, right[j])
      {
        if r !in head {
          var j :| 0 <= j < |right[1..]| && right[1..][j].date == l.date && r == Combine(index, l, right[1..][j]);
          assert right[j + 1] == right[1..][j];
        }
      }
      forall r: JoinedRow | exists j :: 0 <= j < |right| && right[j].date == l.date && r == Combine(index, l, right[j])
        ensures r in Matches(index, l, right)
      {
        var j :| 0 <= j < |right| && right[j].date == l.date && r == Combine(index, l, right[j]);
        if j > 0 { assert right[1..][j - 1] == right[j]; }
      }
    }
  }

  /** A row of `JoinFrom` pairs some left row with a right row of its date. */
  predicate JoinedPair(left: seq<FeatureRow>, right: seq<PricePoint>, start: nat, withIndex: bool, r: JoinedRow)
  {
    exists i, j :: 0 <= i < |left| && 0 <= j < |right| && left[i].date == right[j].date &&
      r == Combine(IndexOf(withIndex, start + i), left[i], right[j])
  }

  lemma {:induction false} JoinFromSound(left: seq<FeatureRow>, right: seq<PricePoint>, start: nat, withIndex: bool)
    ensures forall r :: r in JoinFrom(left, right, start, withIndex) ==> JoinedPair(left, right, start, withIndex, r)
  {
    if left != [] {
      JoinFromSound(left[1..], right, start + 1, withIndex);
      var m := Matches(IndexOf(withIndex, start), left[0], right);
      MatchesMembers(IndexOf(withIndex, start), left[0], right);
      var out := JoinFrom(left, right, start, withIndex);
      assert out == m + JoinFrom(left[1..], right, start + 1, withIndex);
      forall r | r in out
        ensures JoinedPair(left, right, start, withIndex, r)
      {
        if r in m {
          var j :| 0 <= j < |right| && right[j].date == left[0].date && r == Combine(IndexOf(withIndex, start), left[0], right[j]);
          assert start + 0 == start;
        } else {
          assert r in JoinFrom(left[1..], right, start + 1, withIndex);
          var i, j :| 0 <= i < |left[1..]| && 0 <= j < |right| && left[1..][i].date == right[j].date &&
            r == Combine(IndexOf(withIndex, start + 1 + i), left[1..][i], right[j]);
          assert left[i + 1] == left[1..][i];
        }
      }
    }
  }

  lemma {:induction false} JoinFromComplete(left: seq<FeatureRow>, right: seq<PricePoint>, start: nat, withIndex: bool, i: nat, j: nat)
    requires i < |left| && j < |right| && left[i].date == right[j].date
    ensures Combine(IndexOf(withIndex, start + i), left[i], right[j]) in JoinFrom(left, right, start, withIndex)
  {
    var m := Matches(IndexOf(withIndex, start), left[0], right);
    var rest := JoinFrom(left[1..], right, start + 1, withIndex);
    var r := Combine(IndexOf(withIndex, start + i), left[i], right[j]);
    assert JoinFrom(left, right, start, withIndex) == m + rest;
    if i == 0 {
      MatchesMembers(IndexOf(withIndex, start), left[0], right);
      assert r in m;
    } else {
      assert left[1..][i - 1] == left[i];
      JoinFromComplete(left[1..], right, start + 1, withIndex, i - 1, j);
      assert start + 1 + (i - 1) == start + i;
      assert r in rest;
    }
  }

  /** `align_series` is an inner join: its rows are exactly the pairs of a
      feature row and a price row with the same date, each tagged with the
      feature row's position. */
  lemma AlignMembers(left: seq<FeatureRow>, right: seq<PricePoint>)
    ensures forall r :: r in Align(left, right) <==>
      exists i, j :: 0 <= i < |left| && 0 <= j < |right| && left[i].date == right[j].date &&
        r == Combine(Some(i), left[i], right[j])
  {
    JoinFromSound(left, right, 0, true);
    forall r | r in Align(left, right)
      ensures exists i, j :: (0 <= i < |left| && 0 <= j < |right| && left[i].date == right[j].date &&
        r == Combine(Some(i), left[i], right[j]))
    {
      var i, j :| 0 <= i < |left| && 0 <= j < |right| && left[i].date == right[j].date &&
        r == Combine(IndexOf(true, 0 + i), left[i], right[j]);
    }
    forall i, j | 0 <= i < |left| && 0 <= j < |right| && left[i].date == right[j].date
      ensures Combine(Some(i), left[i], right[j]) in Align(left, right)
    {
      JoinFromComplete(left, right, 0, true, i, j);
    }
  }

  function CountLeft(left: seq<FeatureRow>, d: string): nat
  {
    if left == [] then 0 else (if left[0].date == d then 1 else 0) + CountLeft(left[1..], d)
  }

  function CountRight(right: seq<PricePoint>, d: string): nat
  {
    if right == [] then 0 else (if right[0].date == d then 1 else 0) + CountRight(right[1..], d)
  }

  function CountJoined(rows: seq<JoinedRow>, d: string): nat
  {
    if rows == [] then 0 else (if rows[0].date == d then 1 else 0) + CountJoined(rows[1..], d)
  }

  lemma {:induction false} CountJoinedConcat(a: seq<JoinedRow>, b: seq<JoinedRow>, d: string)
    ensures CountJoined(a + b, d) == CountJoined(a, d) + CountJoined(b, d)
  {
    if a == [] {
      assert a + b == b;
    } else {
      assert (a + b)[0] == a[0] && (a + b)[1..] == a[1..] + b;
      CountJoinedConcat(a[1..], b, d);
    }
  }

  lemma {:induction false} MatchesCount(index: Option<nat>, l: FeatureRow, right: seq<PricePoint>, d: string)
    ensures CountJoined(Matches(index, l, right), d) == if l.date == d then CountRight(right, d) else 0
  {
    if right != [] {
      var head := if right[0].date == l.date then [Combine(index, l, right[0])] else [];
      CountJoinedConcat(head, Matches(index, l, right[1..]), d);
      MatchesCount(index, l, right[1..], d);
    }
  }

  lemma {:induction false} JoinFromCount(left: seq<FeatureRow>, right: seq<PricePoint>, start: nat, withIndex: bool, d: string)
    ensures CountJoined(JoinFrom(left, right, start, withIndex), d) == CountLeft(left, d) * CountRight(right, d)
  {
    if left != [] {
      var m := Matches(IndexOf(withIndex, start), left[0], right);
      var rest := JoinFrom(left[1..], right, start + 1, withIndex);
      var x, l', r := if left[0].date == d then 1 else 0, CountLeft(left[1..], d), CountRight(right, d);
      assert JoinFrom(left, right, start, withIndex) == m + rest;
      CountJoinedConcat(m, rest, d);
      MatchesCount(IndexOf(withIndex, start), left[0], right, d);
      JoinFromCount(left[1..], right, start + 1, withIndex, d);
      calc {
        CountJoined(JoinFrom(left, right, start, withIndex), d);
        CountJoined(m, d) + CountJoined(rest, d);
        x * r + l' * r;
        { Distribute(x, l', r); }
        (x + l') * r;
        CountLeft(left, d) * r;
      }
    }
  }

  lemma Distribute(x: int, y: int, r: int)
    ensures x * r + y * r == (x + y) * r
  {
  }

  /** Each date occurs in the join as often as the product of its
      occurrences on the two sides. */
  lemma AlignCount(left: seq<FeatureRow>, right: seq<PricePoint>, d: string)
    ensures CountJoined(Align(left, right), d) == CountLeft(left, d) * CountRight(right, d)
  {
    JoinFromCount(left, right, 0, true, d);
  }

  predicate UniqueDates(left: seq<FeatureRow>)
  {
    forall i, j :: 0 <= i < j < |left| ==> left[i].date != left[j].date
  }

  predicate UniquePriceDates(right: seq<PricePoint>)
  {
    forall i, j :: 0 <= i < j < |right| ==> right[i].date != right[j].date
  }

  lemma {:induction false} CountLeftUnique(left: seq<FeatureRow>, d: string)
    requires UniqueDates(left)
    ensures CountLeft(left, d) == if exists i :: 0 <= i < |left| && left[i].date == d then 1 else 0
  {
    if left != [] {
      assert UniqueDates(left[1..]) by {
        forall i, j | 0 <= i < j < |left[1..]|
          ensures left[1..][i].date != left[1..][j].date
        {
          assert left[1..][i] == left[i + 1] && left[1..][j] == left[j + 1];
        }
      }
      CountLeftUnique(left[1..], d);
      if left[0].date == d {
        forall i | 0 <= i < |left[1..]|
          ensures left[1..][i].date != d
        {
          assert left[1..][i] == left[i + 1];
        }
      } else {
        if i :| 0 <= i < |left| && left[i].date == d {
          assert left[1..][i - 1] == left[i];
        }
        if i :| 0 <= i < |left[1..]| && left[1..][i].date == d {
          assert left[i + 1] == left[1..][i];
        }
      }
    }
  }

  lemma {:induction false} CountRightUnique(right: seq<PricePoint>, d: string)
    requires UniquePriceDates(right)
    ensures CountRight(right, d) == if exists j :: 0 <= j < |right| && right[j].date == d then 1 else 0
  {
    if right != [] {
      assert UniquePriceDates(right[1..]) by {
        forall i, j | 0 <= i < j < |right[1..]|
          ensures right[1..][i].date != right[1..][j].date
        {
          assert right[1..][i] == right[i + 1] && right[1..][j] == right[j + 1];
        }
      }
      CountRightUnique(right[1..], d);
      if right[0].date == d {
        forall i | 0 <= i < |right[1..]|
          ensures right[1..][i].date != d
        {
          assert right[1..][i] == right[i + 1];
        }
      } else {
        if i :| 0 <= i < |right| && right[i].date == d {
          assert right[1..][i - 1] == right[i];
        }
        if i :| 0 <= i < |right[1..]| && right[1..][i].date == d {
          assert right[i + 1] == right[1..][i];
        }
      }
    }
  }

  /** With unique dates on both sides (as the daily features always have),
      every date common to both sides occurs exactly once, and no other. */
  lemma AlignUnique(left: seq<FeatureRow>, right: seq<PricePoint>, d: string)
    requires UniqueDates(left) && UniquePriceDates(right)
    ensures CountJoined(Align(left, right), d) ==
      if (exists i :: 0 <= i < |left| && left[i].date == d) && (exists j :: 0 <= j < |right| && right[j].date == d) then 1 else 0
  {
    AlignCount(left, right, d);
    CountLeftUnique(left, d);
    CountRightUnique(right, d);
  }

  /** The daily features have unique dates, so they can be joined as above. */
  lemma DailyFeaturesUnique(t: NewsTable, score: string -> real)
    requires DailyFeatures(t, score).Ok?
    ensures UniqueDates(DailyFeatures(t, score).value)
  {
    DailyFeaturesRows(t, score);
    var r := DailyFeatures(t, score).value;
    forall i, j | 0 <= i < j < |r|
      ensures r[i].date != r[j].date
    {
      assert DatesOf(r)[i] == r[i].date && DatesOf(r)[j] == r[j].date;
      assert LexLess(DatesOf(r)[i], DatesOf(r)[j]);
      if r[i].date == r[j].date { LexIrreflexive(r[i].date); }
    }
  }
}
