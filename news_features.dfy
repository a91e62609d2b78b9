/** Daily news features (`compute_daily_features`,
    analysis/features/news_features.py): rows without a date are dropped,
    every remaining text is scored, and the rows are grouped by date into one
    feature row per distinct date, in ascending date order. The sentiment
    scorer is a pure function parameter. Means are exact reals. */
module NewsFeatures {
  import opened Common
  import opened Text

  /** A news row: the `url`, `fecha`, `texto` and `longitud` cells, with
      `None` for a null cell. */
  datatype NewsRow = NewsRow(url: Option<string>, fecha: Option<string>, texto: Option<string>, longitud: Option<real>)

  /** A news table: the names of its columns and its rows. */
  datatype NewsTable = NewsTable(columns: set<string>, rows: seq<NewsRow>)

  /** One output row: `date`, `article_count`, `avg_length`, `sentiment_mean`. */
  datatype FeatureRow = FeatureRow(date: string, articleCount: nat, avgLength: Float, sentimentMean: Float)

  /** A row with its `sentiment` column. */
  datatype ScoredRow = ScoredRow(row: NewsRow, sentiment: real)

  // ----- stage 1: drop null dates, score the texts -----

  /** `dropna(subset=["fecha"])`. */
  function DatedRows(rows: seq<NewsRow>): seq<NewsRow>
  {
    if rows == [] then []
    else (if rows[0].fecha.Some? then [rows[0]] else []) + DatedRows(rows[1..])
  }

  /** `fillna("")`: the text that is scored. */
  function TextOf(r: NewsRow): string
  {
    if r.texto.Some? then r.texto.value else ""
  }

  function Texts(rows: seq<NewsRow>): seq<string>
  {
    seq(|rows|, i requires 0 <= i < |rows| => TextOf(rows[i]))
  }

  /** The sentiment loop: one score per text, in order. */
  method ScoreTexts(texts: seq<string>, score: string -> real) returns (sentiments: seq<real>)
    ensures |sentiments| == |texts|
    ensures forall i :: 0 <= i < |texts| ==> sentiments[i] == score(texts[i])
  {
    sentiments := [];
    for i := 0 to |texts|
      invariant |sentiments| == i
      invariant forall j :: 0 <= j < i ==> sentiments[j] == score(texts[j])
    {
      sentiments := sentiments + [score(texts[i])];
    }
  }

  /** The rows with the `sentiment` column attached. */
  function Scored(rows: seq<NewsRow>, score: string -> real): (s: seq<ScoredRow>)
    ensures |s| == |rows| && forall i :: 0 <= i < |s| ==> s[i].row == rows[i]
  {
    if rows == [] then [] else [ScoredRow(rows[0], score(TextOf(rows[0])))] + Scored(rows[1..], score)
  }

  /** Attaching the computed column row by row gives the scored rows. */
  lemma {:induction false} AttachScores(rows: seq<NewsRow>, sentiments: seq<real>, score: string -> real)
    requires |sentiments| == |rows|
    requires forall i :: 0 <= i < |rows| ==> sentiments[i] == score(TextOf(rows[i]))
    ensures seq(|rows|, i requires 0 <= i < |rows| => ScoredRow(rows[i], sentiments[i])) == Scored(rows, score)
  {
    if rows != [] {
      AttachScores(rows[1..], sentiments[1..], score);
      assert seq(|rows| - 1, i requires 0 <= i < |rows| - 1 => ScoredRow(rows[1..][i], sentiments[1..][i]))
        == seq(|rows|, i requires 0 <= i < |rows| => ScoredRow(rows[i], sentiments[i]))[1..];
    }
  }

  // ----- stage 2: group by date -----

  /** Strictly ascending in code-point order: sorted, without duplicates. */
  predicate StrictlySorted(ks: seq<string>)
  {
    forall i, j :: 0 <= i < j < |ks| ==> LexLess(ks[i], ks[j])
  }

  /** Inserts `k` into a strictly sorted key list, unless it is already there. */
  function Insert(k: string, ks: seq<string>): seq<string>
  {
    if ks == [] then [k]
    else if k == ks[0] then ks
    else if LexLess(k, ks[0]) then [k] + ks
    else [ks[0]] + Insert(k, ks[1..])
  }

  /** The group keys of `groupby("fecha")`: the distinct dates, ascending. */
  function Dates(s: seq<ScoredRow>): seq<string>
  {
    if s == [] then []
    else if s[0].row.fecha.Some? then Insert(s[0].row.fecha.value, Dates(s[1..]))
    else Dates(s[1..])
  }

  /** The rows of one group. */
  function Group(s: seq<ScoredRow>, d: string): seq<ScoredRow>
  {
    if s == [] then []
    else (if s[0].row.fecha == Some(d) then [s[0]] else []) + Group(s[1..], d)
  }

  /** `("url", "count")`: the non-null urls. */
  function CountUrls(g: seq<ScoredRow>): nat
  {
    if g == [] then 0 else (if g[0].row.url.Some? then 1 else 0) + CountUrls(g[1..])
  }

  /** The non-null `longitud` values, which `mean` averages. */
  function Lengths(g: seq<ScoredRow>): seq<real>
  {
    if g == [] then []
    else (if g[0].row.longitud.Some? then [g[0].row.longitud.value] else []) + Lengths(g[1..])
  }

  function Sentiments(g: seq<ScoredRow>): seq<real>
  {
    if g == [] then [] else [g[0].sentiment] + Sentiments(g[1..])
  }

  function Sum(xs: seq<real>): real
  {
    if xs == [] then 0.0 else xs[0] + Sum(xs[1..])
  }

  /** pandas `mean`: NaN when there is nothing to average. */
  function MeanOf(sum: real, n: nat): (r: Float)
    ensures r.NaN? <==> n == 0
  {
    if n == 0 then NaN else Finite(sum / n as real)
  }

  function Mean(xs: seq<real>): Float
  {
    MeanOf(Sum(xs), |xs|)
  }

  /** The aggregate of one group. */
  function FeatureOf(s: seq<ScoredRow>, d: string): FeatureRow
  {
    var g := Group(s, d);
    FeatureRow(d, CountUrls(g), Mean(Lengths(g)), Mean(Sentiments(g)))
  }

  /** `groupby("fecha").agg(...).reset_index()`, with `fecha` renamed `date`. */
  function Aggregate(s: seq<ScoredRow>): (r: seq<FeatureRow>)
    ensures |r| == |Dates(s)|
  {
    var ks := Dates(s);
    seq(|ks|, i requires 0 <= i < |ks| => FeatureOf(s, ks[i]))
  }

  /** The `KeyError` pandas' named aggregation raises when input columns of
      `url` and `longitud` are missing: all of them, in sorted order. */
  function MissingAggColumns(columns: set<string>): (msg: string)
    requires "url" !in columns || "longitud" !in columns
  {
    if "longitud" !in columns && "url" !in columns then "Column(s) ['longitud', 'url'] do not exist"
    else if "longitud" !in columns then "Column(s) ['longitud'] do not exist"
    else "Column(s) ['url'] do not exist"
  }

  /** What `compute_daily_features` returns or raises. */
  function DailyFeatures(t: NewsTable, score: string -> real): Result<seq<FeatureRow>>
  {
    if "fecha" !in t.columns then Err(ValueError("Expected 'fecha' column in news_df"))
    else if "texto" !in t.columns then Err(KeyError("texto"))
    else if "url" !in t.columns || "longitud" !in t.columns then Err(KeyError(MissingAggColumns(t.columns)))
    else Ok(Aggregate(Scored(DatedRows(t.rows), score)))
  }

  /** `compute_daily_features`: the column check, the copy without null
      dates, the scoring loop and the aggregation. */
  method ComputeDailyFeatures(t: NewsTable, score: string -> real) returns (r: Result<seq<FeatureRow>>)
    ensures "fecha" !in t.columns ==> r == Err(ValueError("Expected 'fecha' column in news_df"))
    ensures r.Ok? <==> {"fecha", "texto", "url", "longitud"} <= t.columns
    ensures r == DailyFeatures(t, score)
  {
    if "fecha" !in t.columns {
      return Err(ValueError("Expected 'fecha' column in news_df"));
    }
    var df := DatedRows(t.rows);
    if "texto" !in t.columns {
      return Err(KeyError("texto"));
    }
    var sentiments := ScoreTexts(Texts(df), score);
    var scored := seq(|df|, i requires 0 <= i < |df| => ScoredRow(df[i], sentiments[i]));
    AttachScores(df, sentiments, score);
    if "url" !in t.columns || "longitud" !in t.columns {
      return Err(KeyError(MissingAggColumns(t.columns)));
    }
    r := Ok(Aggregate(scored));
  }

  // ----- a reference definition, one row at a time -----

  /** What one date's aggregate needs, summed over the rows: the rows, the
      non-null urls, the non-null lengths and their sum, and the score sum. */
  datatype Tally = Tally(rows: nat, urls: nat, lengths: nat, lengthSum: real, scoreSum: real)

  function Add(a: Tally, b: Tally): Tally
  {
    Tally(a.rows + b.rows, a.urls + b.urls, a.lengths + b.lengths, a.lengthSum + b.lengthSum, a.scoreSum + b.scoreSum)
  }

  const Zero := Tally(0, 0, 0, 0.0, 0.0)

  /** One row's contribution to the aggregate of date `d`. */
  function RowTally(r: NewsRow, d: string, score: string -> real): Tally
  {
    if r.fecha == Some(d) then
      Tally(1, if r.url.Some? then 1 else 0,
            if r.longitud.Some? then 1 else 0, if r.longitud.Some? then r.longitud.value else 0.0,
            score(TextOf(r)))
    else Zero
  }

  /** The aggregate of date `d` over the original rows. */
  function TallyOn(rows: seq<NewsRow>, d: string, score: string -> real): Tally
  {
    if rows == [] then Zero else Add(RowTally(rows[0], d, score), TallyOn(rows[1..], d, score))
  }

  // ----- properties -----

  lemma {:induction false} InsertSorted(k: string, ks: seq<string>)
    requires StrictlySorted(ks)
    ensures StrictlySorted(Insert(k, ks))
    ensures forall x :: x in Insert(k, ks) <==> x == k || x in ks
  {
    if ks != [] && k != ks[0] && !LexLess(k, ks[0]) {
      assert StrictlySorted(ks[1..]);
      InsertSorted(k, ks[1..]);
      LexTotal(k, ks[0]);
      var r := Insert(k, ks[1..]);
      forall j | 0 <= j < |r|
        ensures LexLess(ks[0], r[j])
      {
        assert r[j] in r;
        if r[j] != k {
          var m :| 0 <= m < |ks[1..]| && ks[1..][m] == r[j];
          assert ks[1..][m] == ks[m + 1];
        }
      }
    } else if ks != [] && k != ks[0] {
      forall j | 0 <= j < |ks|
        ensures LexLess(k, ks[j])
      {
        if j > 0 { LexTransitive(k, ks[0], ks[j]); }
      }
    }
  }

  /** The keys are strictly ascending: sorted and without duplicates. */
  lemma {:induction false} DatesSorted(s: seq<ScoredRow>)
    ensures StrictlySorted(Dates(s))
  {
    if s != [] {
      DatesSorted(s[1..]);
      if s[0].row.fecha.Some? {
        InsertSorted(s[0].row.fecha.value, Dates(s[1..]));
      }
    }
  }

  /** A date is a key exactly when some row carries it. */
  lemma {:induction false} DatesMembers(s: seq<ScoredRow>)
    ensures forall k :: k in Dates(s) <==> exists i :: 0 <= i < |s| && s[i].row.fecha == Some(k)
  {
    if s != [] {
      DatesMembers(s[1..]);
      DatesSorted(s[1..]);
      if s[0].row.fecha.Some? {
        InsertSorted(s[0].row.fecha.value, Dates(s[1..]));
      }
      forall k | (exists i :: 0 <= i < |s| && s[i].row.fecha == Some(k))
        ensures k in Dates(s)
      {
        var i :| 0 <= i < |s| && s[i].row.fecha == Some(k);
        if i > 0 { assert s[1..][i - 1] == s[i]; }
      }
      forall k | k in Dates(s)
        ensures exists i :: 0 <= i < |s| && s[i].row.fecha == Some(k)
      {
        if s[0].row.fecha != Some(k) {
          var i :| 0 <= i < |s[1..]| && s[1..][i].row.fecha == Some(k);
          assert s[i + 1] == s[1..][i];
        }
      }
    }
  }

  /** Scoring and dropping null dates keep exactly the dated rows. */
  lemma ScoredDatedRows(rows: seq<NewsRow>, score: string -> real)
    ensures forall i :: 0 <= i < |Scored(DatedRows(rows), score)| ==>
      Scored(DatedRows(rows), score)[i].row.fecha.Some?
    ensures forall k ::
      ((exists i :: 0 <= i < |Scored(DatedRows(rows), score)| && Scored(DatedRows(rows), score)[i].row.fecha == Some(k))
       <==> (exists i :: 0 <= i < |rows| && rows[i].fecha == Some(k)))
  {
    var d := DatedRows(rows);
    var s := Scored(d, score);
    DatedRowsMembers(rows);
    forall i | 0 <= i < |s|
      ensures s[i].row.fecha.Some?
    {
      assert d[i] in d;
    }
    forall k | (exists i :: 0 <= i < |s| && s[i].row.fecha == Some(k))
      ensures exists i :: 0 <= i < |rows| && rows[i].fecha == Some(k)
    {
      var i :| 0 <= i < |s| && s[i].row.fecha == Some(k);
      assert d[i] in d;
      var j :| 0 <= j < |rows| && rows[j] == d[i];
    }
    forall k | (exists i :: 0 <= i < |rows| && rows[i].fecha == Some(k))
      ensures exists i :: 0 <= i < |s| && s[i].row.fecha == Some(k)
    {
      var i :| 0 <= i < |rows| && rows[i].fecha == Some(k);
      assert rows[i] in rows;
      var j :| 0 <= j < |d| && d[j] == rows[i];
      assert s[j].row == d[j];
    }
  }

  /** Dropping null dates keeps exactly the dated rows. */
  lemma {:induction false} DatedRowsMembers(rows: seq<NewsRow>)
    ensures forall r :: r in DatedRows(rows) <==> r in rows && r.fecha.Some?
  {
    if rows != [] {
      DatedRowsMembers(rows[1..]);
      var head := if rows[0].fecha.Some? then [rows[0]] else [];
      assert DatedRows(rows) == head + DatedRows(rows[1..]);
      assert rows == [rows[0]] + rows[1..];
    }
  }

  /** Each group's aggregate, read off the scored rows, equals the
      row-by-row reference tally over the original rows. */
  lemma {:induction false} GroupTally(rows: seq<NewsRow>, d: string, score: string -> real)
    ensures var g := Group(Scored(DatedRows(rows), score), d);
      var t := TallyOn(rows, d, score);
      |g| == t.rows && CountUrls(g) == t.urls && |Lengths(g)| == t.lengths &&
      Sum(Lengths(g)) == t.lengthSum && |Sentiments(g)| == t.rows && Sum(Sentiments(g)) == t.scoreSum
  {
    if rows != [] {
      GroupTally(rows[1..], d, score);
      var x := rows[0];
      var s' := Scored(DatedRows(rows[1..]), score);
      var g' := Group(s', d);
      if x.fecha.Some? {
        assert DatedRows(rows) == [x] + DatedRows(rows[1..]);
        var sx := ScoredRow(x, score(TextOf(x)));
        var s := Scored(DatedRows(rows), score);
        assert s == [sx] + s';
        assert s[1..] == s';
        if x.fecha == Some(d) {
          var g := Group(s, d);
          assert g == [sx] + g';
          assert g[1..] == g';
          var ls := Lengths(g');
          if x.longitud.Some? {
            assert Lengths(g) == [x.longitud.value] + ls;
            assert ([x.longitud.value] + ls)[1..] == ls;
          } else {
            assert Lengths(g) == ls;
          }
          assert Sentiments(g) == [sx.sentiment] + Sentiments(g');
          assert ([sx.sentiment] + Sentiments(g'))[1..] == Sentiments(g');
        } else {
          assert Group(s, d) == g';
        }
      } else {
        assert DatedRows(rows) == DatedRows(rows[1..]);
      }
    }
  }

  /** A date carried by some row has a non-empty group. */
  lemma {:induction false} TallyRowsPositive(rows: seq<NewsRow>, d: string, score: string -> real)
    requires exists i :: 0 <= i < |rows| && rows[i].fecha == Some(d)
    ensures TallyOn(rows, d, score).rows >= 1
  {
    if rows[0].fecha != Some(d) {
      var i :| 0 <= i < |rows| && rows[i].fecha == Some(d);
      assert rows[1..][i - 1] == rows[i];
      TallyRowsPositive(rows[1..], d, score);
    }
  }

  /** A feature row as the reference tally of its date determines it. */
  function FromTally(d: string, t: Tally): FeatureRow
  {
    FeatureRow(d, t.urls, MeanOf(t.lengthSum, t.lengths), MeanOf(t.scoreSum, t.rows))
  }

  function DatesOf(r: seq<FeatureRow>): (ds: seq<string>)
    ensures |ds| == |r| && forall i :: 0 <= i < |r| ==> ds[i] == r[i].date
  {
    seq(|r|, i requires 0 <= i < |r| => r[i].date)
  }

  /** With all four columns present the result has one row per distinct
      non-null `fecha`, in strictly ascending order; `article_count` counts
      that date's non-null urls, `avg_length` averages its non-null lengths
      (NaN when there are none) and `sentiment_mean` averages the scores of
      its texts, a null text scoring as `""`. */
  lemma DailyFeaturesRows(t: NewsTable, score: string -> real)
    requires {"fecha", "texto", "url", "longitud"} <= t.columns
    ensures DailyFeatures(t, score).Ok?
    ensures var r := DailyFeatures(t, score).value;
      StrictlySorted(DatesOf(r)) &&
      (forall d :: d in DatesOf(r) <==> exists i :: 0 <= i < |t.rows| && t.rows[i].fecha == Some(d)) &&
      (forall i :: 0 <= i < |r| ==> r[i] == FromTally(r[i].date, TallyOn(t.rows, r[i].date, score))) &&
      (forall i :: 0 <= i < |r| ==> r[i].sentimentMean.Finite?)
  {
    var s := Scored(DatedRows(t.rows), score);
    var r := DailyFeatures(t, score).value;
    var ks := Dates(s);
    assert r == Aggregate(s);
    assert DatesOf(r) == ks;
    DatesSorted(s);
    DatesMembers(s);
    ScoredDatedRows(t.rows, score);
    forall i | 0 <= i < |r|
      ensures r[i] == FromTally(r[i].date, TallyOn(t.rows, r[i].date, score))
      ensures r[i].sentimentMean.Finite?
    {
      assert r[i] == FeatureOf(s, ks[i]);
      GroupTally(t.rows, ks[i], score);
      assert ks[i] in ks;
      TallyRowsPositive(t.rows, ks[i], score);
    }
  }

  lemma AddAssoc(a: Tally, b: Tally, c: Tally)
    ensures Add(Add(a, b), c) == Add(a, Add(b, c))
  {
  }

  lemma AddSwap(a: Tally, b: Tally, c: Tally)
    ensures Add(a, Add(b, c)) == Add(b, Add(a, c))
  {
  }

  /** The sum of `f` over the rows; `TallyOn` is the sum of `RowTally`. */
  function SumOf(f: NewsRow -> Tally, rows: seq<NewsRow>): Tally
  {
    if rows == [] then Zero else Add(f(rows[0]), SumOf(f, rows[1..]))
  }

  lemma {:induction false} SumOfConcat(f: NewsRow -> Tally, a: seq<NewsRow>, b: seq<NewsRow>)
    ensures SumOf(f, a + b) == Add(SumOf(f, a), SumOf(f, b))
  {
    if a == [] {
      assert a + b == b;
    } else {
      var ab := a + b;
      assert ab[1..] == a[1..] + b && ab[0] == a[0];
      var x, ta, tb := f(a[0]), SumOf(f, a[1..]), SumOf(f, b);
      calc {
        SumOf(f, ab);
        Add(x, SumOf(f, a[1..] + b));
        { SumOfConcat(f, a[1..], b); }
        Add(x, Add(ta, tb));
        { AddAssoc(x, ta, tb); }
        Add(Add(x, ta), tb);
        Add(SumOf(f, a), tb);
      }
    }
  }

  lemma {:induction false} TallyIsSum(rows: seq<NewsRow>, d: string, score: string -> real)
    ensures TallyOn(rows, d, score) == SumOf(r => RowTally(r, d, score), rows)
  {
    if rows != [] {
      TallyIsSum(rows[1..], d, score);
    }
  }

  lemma TallyConcat(a: seq<NewsRow>, b: seq<NewsRow>, d: string, score: string -> real)
    ensures TallyOn(a + b, d, score) == Add(TallyOn(a, d, score), TallyOn(b, d, score))
  {
    TallyIsSum(a, d, score);
    TallyIsSum(b, d, score);
    TallyIsSum(a + b, d, score);
    SumOfConcat(r => RowTally(r, d, score), a, b);
  }

  /** Taking one row out of the middle takes its contribution out of the tally. */
  lemma TallyRemove(b: seq<NewsRow>, j: nat, d: string, score: string -> real)
    requires j < |b|
    ensures TallyOn(b, d, score) == Add(RowTally(b[j], d, score), TallyOn(b[..j] + b[j + 1..], d, score))
  {
    var pre, post := b[..j], b[j + 1..];
    var x := RowTally(b[j], d, score);
    assert b == pre + ([b[j]] + post);
    TallyConcat(pre, [b[j]] + post, d, score);
    assert ([b[j]] + post)[1..] == post;
    assert TallyOn([b[j]] + post, d, score) == Add(x, TallyOn(post, d, score));
    TallyConcat(pre, post, d, score);
    AddSwap(TallyOn(pre, d, score), x, TallyOn(post, d, score));
  }

  /** The reference tally depends on the multiset of rows, not on their order. */
  lemma {:induction false} TallyPermutation(a: seq<NewsRow>, b: seq<NewsRow>, d: string, score: string -> real)
    requires multiset(a) == multiset(b)
    ensures TallyOn(a, d, score) == TallyOn(b, d, score)
    decreases |a|
  {
    if a == [] {
      assert |b| == |multiset(b)| == 0;
    } else {
      assert a[0] in multiset(b);
      var j :| 0 <= j < |b| && b[j] == a[0];
      RemoveAt(b, j);
      RemoveFirst(a);
      TallyPermutation(a[1..], b[..j] + b[j + 1..], d, score);
      TallyRemove(b, j, d, score);
    }
  }

  lemma HeadMember(s: seq<string>)
    ensures s == [] || s[0] in s
  {
  }

  /** Two strictly ascending key lists with the same members are equal. */
  lemma {:induction false} SortedUnique(a: seq<string>, b: seq<string>)
    requires StrictlySorted(a) && StrictlySorted(b)
    requires forall x :: x in a <==> x in b
    ensures a == b
  {
    if a == [] || b == [] {
      HeadMember(a);
      HeadMember(b);
    } else {
      assert a[0] in a && b[0] in b;
      var j :| 0 <= j < |b| && b[j] == a[0];
      var i :| 0 <= i < |a| && a[i] == b[0];
      if j > 0 {
        assert LexLess(b[0], b[j]);
        if i > 0 {
          LexAsymmetric(a[0], a[i]);
        } else {
          LexIrreflexive(a[0]);
        }
      }
      assert a[0] == b[0];
      forall x
        ensures x in a[1..] <==> x in b[1..]
      {
        if x in a[1..] {
          var m :| 0 <= m < |a[1..]| && a[1..][m] == x;
          assert LexLess(a[0], a[m + 1]);
          LexIrreflexive(x);
          assert x in b;
          var k :| 0 <= k < |b| && b[k] == x;
          assert k != 0;
          assert b[1..][k - 1] == x;
        }
        if x in b[1..] {
          var m :| 0 <= m < |b[1..]| && b[1..][m] == x;
          assert LexLess(b[0], b[m + 1]);
          LexIrreflexive(x);
          assert x in a;
          var k :| 0 <= k < |a| && a[k] == x;
          assert k != 0;
          assert a[1..][k - 1] == x;
        }
      }
      assert StrictlySorted(a[1..]) && StrictlySorted(b[1..]);
      SortedUnique(a[1..], b[1..]);
      assert a == [a[0]] + a[1..] && b == [b[0]] + b[1..];
    }
  }

  /** Permuting the rows changes nothing: the aggregate of every date, the
      set of dates and their order are all independent of row order. */
  lemma OrderIndependent(t1: NewsTable, t2: NewsTable, score: string -> real)
    requires t1.columns == t2.columns && multiset(t1.rows) == multiset(t2.rows)
    ensures DailyFeatures(t1, score) == DailyFeatures(t2, score)
  {
    if {"fecha", "texto", "url", "longitud"} <= t1.columns {
      DailyFeaturesRows(t1, score);
      DailyFeaturesRows(t2, score);
      var r1, r2 := DailyFeatures(t1, score).value, DailyFeatures(t2, score).value;
      forall d
        ensures d in DatesOf(r1) <==> d in DatesOf(r2)
      {
        SameDates(t1.rows, t2.rows, d);
      }
      SortedUnique(DatesOf(r1), DatesOf(r2));
      forall i | 0 <= i < |r1|
        ensures r1[i] == r2[i]
      {
        assert DatesOf(r1)[i] == DatesOf(r2)[i];
        TallyPermutation(t1.rows, t2.rows, r1[i].date, score);
      }
      assert r1 == r2;
    }
  }

  lemma SameDates(a: seq<NewsRow>, b: seq<NewsRow>, d: string)
    requires multiset(a) == multiset(b)
    ensures (exists i :: 0 <= i < |a| && a[i].fecha == Some(d)) <==> (exists j :: 0 <= j < |b| && b[j].fecha == Some(d))
  {
    if i :| 0 <= i < |a| && a[i].fecha == Some(d) {
      assert a[i] in multiset(b);
      var j :| 0 <= j < |b| && b[j] == a[i];
    }
    if j :| 0 <= j < |b| && b[j].fecha == Some(d) {
      assert b[j] in multiset(a);
      var i :| 0 <= i < |a| && a[i] == b[j];
    }
  }

  /** Rows with a null `fecha` contribute nothing: dropping them first gives
      the same result. */
  lemma NullDatesIgnored(t: NewsTable, score: string -> real)
    ensures DailyFeatures(NewsTable(t.columns, DatedRows(t.rows)), score) == DailyFeatures(t, score)
  {
    DatedRowsIdempotent(t.rows);
  }

  lemma {:induction false} DatedRowsIdempotent(rows: seq<NewsRow>)
    ensures DatedRows(DatedRows(rows)) == DatedRows(rows)
  {
    if rows != [] {
      DatedRowsIdempotent(rows[1..]);
      if rows[0].fecha.None? {
        assert DatedRows(rows) == DatedRows(rows[1..]);
      } else {
        var d := DatedRows(rows);
        assert d == [rows[0]] + DatedRows(rows[1..]);
        assert d[0] == rows[0] && d[1..] == DatedRows(rows[1..]);
        assert DatedRows(d) == [d[0]] + DatedRows(d[1..]);
      }
    }
  }
}
