/** The multiprocessing engine (analysis/engine/backends/mp_engine.py). Its
    worker pool is an order-preserving `map`, modelled sequentially; what is
    left of the pool is the check that it has at least one process. */
module MpEngine {
  import opened Common
  import opened Text
  import opened DateParse
  import opened NewsFeatures
  import opened ColcapLoader
  import opened Correlations
  import PandasEngine

  /** `astype(str)` on a `fecha` cell: a missing value becomes `"nan"`. */
  function PyStr(c: Cell): string
  {
    match c
    case Missing => "nan"
    case Text(s) => s
    case Integer(i) => IntToString(i)
  }

  /** `_parse_date(str(cell))`. */
  function ParseDate(c: Cell): Option<string>
  {
    ToDate(Text(PyStr(c)))
  }

  const PoolTooSmall := "Number of processes must be at least 1"

  class MultiprocessingEngine {
    var nprocs: int

    /** `self.nprocs = nprocs or cpu_count()`: `None` and `0` both select
        the CPU count. */
    constructor(nprocs: Option<int>, cpuCount: nat)
      requires cpuCount >= 1
      ensures nprocs.None? || nprocs.value == 0 ==> this.nprocs == cpuCount
      ensures nprocs.Some? && nprocs.value != 0 ==> this.nprocs == nprocs.value
      ensures this.nprocs >= 1 <==> nprocs.None? || nprocs.value >= 0
    {
      this.nprocs := if nprocs.None? || nprocs.value == 0 then cpuCount else nprocs.value;
    }

    /** `load_news`: the pool is created before the `fecha` column is read,
        so a pool size below one raises first. */
    function LoadNews(t: PandasEngine.RawNewsTable): Result<NewsTable>
      reads this
    {
      if nprocs < 1 then Err(ValueError(PoolTooSmall))
      else if "fecha" !in t.columns then Err(KeyError("fecha"))
      else Ok(NewsTable(t.columns, PandasEngine.ParseDates(t.rows, ParseDate)))
    }

    /** `load_colcap`: as the pandas engine but without the column check, so
        a missing column surfaces as the `KeyError` of reading it. */
    function LoadColcap(t: PriceTable): Result<seq<PricePoint>>
    {
      if "date" !in t.columns then Err(KeyError("date"))
      else if "close" !in t.columns then Err(KeyError("close"))
      else Ok(SortByDate(Kept(t.rows)))
    }

    /** `pd.merge(news_features_df, colcap_df, on="date", how="inner")`: no
        `index` column. */
    function AlignSeries(left: seq<FeatureRow>, right: seq<PricePoint>): seq<PandasEngine.JoinedRow>
    {
      PandasEngine.JoinFrom(left, right, 0, false)
    }

    /** `compute_correlations`, whose body is the pandas engine's. */
    method ComputeCorrelations(f: Frame, methods: Option<seq<string>>, windows: Option<seq<int>>, co: Coefficients)
      returns (r: Result<map<string, Entry>>)
      requires WellFormed(f)
      ensures r == CorrelationsOf(f, methods, windows, co)
    {
      r := Correlations.ComputeCorrelations(f, methods, windows, co);
    }
  }

  // ----- agreement with the pandas engine -----

  /** `str(cell)` of an integer or of a missing value never parses, so the
      string detour changes no date: `"nan"` and `str(i)` both give `None`,
      exactly as `to_date` does for the non-string cell itself. */
  lemma ParseDateAgrees(c: Cell)
    ensures ParseDate(c) == ToDate(c)
  {
    match c
    case Missing => NanNotDate();
    case Text(s) =>
    case Integer(i) => IntNotDate(i);
  }

  lemma NanNotDate()
    ensures ToDate(Text("nan")) == None
  {
    var s := "nan";
    assert LowerFixed(s) && Trimmed(s);
    NormalText(s);
    assert TakeWhile(s, DigitClass) == [];
    assert ParseNormalized(s) == ParseLong(s);
  }

  lemma IntNotDate(i: int)
    ensures ToDate(Text(IntToString(i))) == None
  {
    var s := IntToString(i);
    IntNormalized(i);
    NormalText(s);
    IntNotLong(i);
    assert !IsoShape(s) && !DmyShape(s) by {
      if |s| == 10 { assert IsDigit(s[4]) && IsDigit(s[2]); }
    }
    assert ParseNormalized(s) == ParseLong(s);
  }

  /** `str(i)` is already stripped and lower case. */
  lemma IntNormalized(i: int)
    ensures Trimmed(IntToString(i)) && LowerFixed(IntToString(i))
  {
    var s := IntToString(i);
    forall k | 0 <= k < |s|
      ensures LowerChar(s[k]) == s[k]
    {
      assert IsDigit(s[k]) || s[k] == '-';
    }
    assert IsDigit(s[0]) || s[0] == '-';
    assert IsDigit(s[|s| - 1]);
  }

  /** `str(i)` has no day of a long date: a minus sign, three digits or
      nothing after one or two digits. */
  lemma IntNotLong(i: int)
    ensures MatchLong(IntToString(i)) == None
  {
    var s := IntToString(i);
    IntToStringSign(i);
    if i < 0 {
      assert TakeWhile(s, DigitClass) == [];
    } else if |s| >= 3 {
      assert IsDigit(s[0]) && IsDigit(s[1]) && IsDigit(s[2]);
      ThreeDigitsNotLong(s);
    } else {
      assert s + [] == s;
      TakeWhileExact(s, [], DigitClass);
      SkipDeNone([]);
      assert s[|s|..] == [];
    }
  }

  /** With a pool of at least one process, `load_news` keeps the same rows
      as the pandas engine; otherwise it raises the pool's `ValueError`. */
  lemma LoadNewsAgrees(e: MultiprocessingEngine, t: PandasEngine.RawNewsTable)
    ensures e.nprocs >= 1 ==> e.LoadNews(t) == PandasEngine.LoadNews(t)
    ensures e.nprocs < 1 ==> e.LoadNews(t) == Err(ValueError("Number of processes must be at least 1"))
  {
    forall c
      ensures ParseDate(c) == ToDate(c)
    {
      ParseDateAgrees(c);
    }
    PandasEngine.ParseDatesCongruent(t.rows, ParseDate, ToDate);
  }

  /** `load_colcap` gives the pandas engine's rows whenever both columns
      exist; a missing column raises `KeyError` instead of `ValueError`. */
  lemma LoadColcapAgrees(e: MultiprocessingEngine, t: PriceTable)
    ensures e.LoadColcap(t).Ok? <==> PandasEngine.LoadColcap(t).Ok?
    ensures e.LoadColcap(t).Ok? ==> e.LoadColcap(t).value == PandasEngine.LoadColcap(t).value
    ensures e.LoadColcap(t).Err? ==> e.LoadColcap(t).error.KeyError?
  {
  }

  function DropIndex(r: PandasEngine.JoinedRow): PandasEngine.JoinedRow
  {
    r.(index := None)
  }

  lemma {:induction false} MatchesIndexFree(index: Option<nat>, l: FeatureRow, right: seq<PricePoint>)
    ensures var a, b := PandasEngine.Matches(None, l, right), PandasEngine.Matches(index, l, right);
      |a| == |b| && forall k :: 0 <= k < |a| ==> a[k] == DropIndex(b[k])
  {
    if right != [] {
      MatchesIndexFree(index, l, right[1..]);
    }
  }

  lemma {:induction false} JoinFromIndexFree(left: seq<FeatureRow>, right: seq<PricePoint>, start: nat)
    ensures var a, b := PandasEngine.JoinFrom(left, right, start, false), PandasEngine.JoinFrom(left, right, start, true);
      |a| == |b| && forall k :: 0 <= k < |a| ==> a[k] == DropIndex(b[k])
  {
    if left != [] {
      MatchesIndexFree(Some(start), left[0], right);
      JoinFromIndexFree(left[1..], right, start + 1);
      var m0, m1 := PandasEngine.Matches(None, left[0], right), PandasEngine.Matches(Some(start), left[0], right);
      var r0, r1 := PandasEngine.JoinFrom(left[1..], right, start + 1, false), PandasEngine.JoinFrom(left[1..], right, start + 1, true);
      assert PandasEngine.JoinFrom(left, right, start, false) == m0 + r0;
      assert PandasEngine.JoinFrom(left, right, start, true) == m1 + r1;
    }
  }

  /** The join of this engine is the pandas join, row for row, without the
      `index` column. */
  lemma AlignAgrees(e: MultiprocessingEngine, left: seq<FeatureRow>, right: seq<PricePoint>)
    ensures var a, b := e.AlignSeries(left, right), PandasEngine.Align(left, right);
      |a| == |b| && forall k :: 0 <= k < |a| ==> a[k] == DropIndex(b[k])
  {
    JoinFromIndexFree(left, right, 0);
  }

  // The folds read a frame only through its data map.

  lemma {:induction false} MethodFoldData(f1: Frame, f2: Frame, m: string, fs: seq<string>, co: Coefficients)
    requires f1.data == f2.data
    requires "close" in f1.data && forall c :: c in fs ==> c in f1.data
    ensures MethodFold(f1, m, fs, co) == MethodFold(f2, m, fs, co)
    decreases |fs|
  {
    if fs != [] {
      MethodFoldData(f1, f2, m, fs[..|fs| - 1], co);
    }
  }

  lemma {:induction false} WindowFoldData(f1: Frame, f2: Frame, win: int, fs: seq<string>, co: Coefficients)
    requires f1.data == f2.data && WellFormed(f1) && WellFormed(f2)
    requires "close" in f1.data && forall c :: c in fs ==> c in f1.data
    requires fs == [] || win >= 0
    ensures WindowFold(f1, win, fs, co) == WindowFold(f2, win, fs, co)
    decreases |fs|
  {
    if fs != [] {
      WindowFoldData(f1, f2, win, fs[..|fs| - 1], co);
    }
  }

  lemma {:induction false} RollingFoldData(f1: Frame, f2: Frame, ws: seq<int>, fs: seq<string>, co: Coefficients)
    requires f1.data == f2.data && WellFormed(f1) && WellFormed(f2)
    requires "close" in f1.data && forall c :: c in fs ==> c in f1.data
    requires fs == [] || forall i :: 0 <= i < |ws| ==> ws[i] >= 0
    ensures RollingFold(f1, ws, fs, co) == RollingFold(f2, ws, fs, co)
    decreases |ws|
  {
    if ws != [] {
      RollingFoldData(f1, f2, ws[..|ws| - 1], fs, co);
      WindowFoldData(f1, f2, ws[|ws| - 1], fs, co);
    }
  }

  lemma {:induction false} MethodsFoldData(f1: Frame, f2: Frame, ms: seq<string>, fs: seq<string>, co: Coefficients)
    requires f1.data == f2.data
    requires "close" in f1.data && forall c :: c in fs ==> c in f1.data
    ensures MethodsFold(f1, ms, fs, co) == MethodsFold(f2, ms, fs, co)
    decreases |ms|
  {
    if ms != [] {
      MethodsFoldData(f1, f2, ms[..|ms| - 1], fs, co);
      MethodFoldData(f1, f2, ms[|ms| - 1], fs, co);
    }
  }

  /** Two frames with the same data, the same feature columns and the same
      presence of `close` give the same correlations. */
  lemma SameCorrelations(f1: Frame, f2: Frame, methods: Option<seq<string>>, windows: Option<seq<int>>, co: Coefficients)
    requires WellFormed(f1) && WellFormed(f2) && f1.data == f2.data
    requires FeatureCols(f1.columns) == FeatureCols(f2.columns)
    requires "close" in f1.columns <==> "close" in f2.columns
    ensures CorrelationsOf(f1, methods, windows, co) == CorrelationsOf(f2, methods, windows, co)
  {
    var ms, ws, fs := MethodsOrDefault(methods), WindowsOrDefault(windows), FeatureCols(f1.columns);
    if "close" in f1.columns && !(fs != [] && HasNegative(ws)) {
      FeatureColsNumeric(f1);
      assert "close" in f1.data by {
        var i :| 0 <= i < |f1.columns| && f1.columns[i] == "close";
      }
      MethodsFoldData(f1, f2, ms, fs, co);
      RollingFoldData(f1, f2, ws, fs, co);
    }
  }

  /** Both joined tables have the same feature columns and both have
      `close`: the `index` column is not a feature. */
  lemma JoinedColumnsAgree()
    ensures FeatureCols(PandasEngine.JoinedColumns(false)) == FeatureCols(PandasEngine.JoinedColumns(true))
    ensures "close" in PandasEngine.JoinedColumns(false) && "close" in PandasEngine.JoinedColumns(true)
  {
    var c0, c1 := PandasEngine.JoinedColumns(false), PandasEngine.JoinedColumns(true);
    assert c1 == ["index"] + c0;
    assert !IsFeature("index");
    assert Filter(c1, IsFeature) == Filter(c0, IsFeature);
    assert c0[4] == "close" && c1[5] == "close";
  }

  /** The two engines' whole pipelines after loading agree: correlating
      this engine's join gives what correlating the pandas engine's join
      gives, for every input and every argument. */
  lemma CorrelationsAgree(e: MultiprocessingEngine, left: seq<FeatureRow>, right: seq<PricePoint>,
                          methods: Option<seq<string>>, windows: Option<seq<int>>, co: Coefficients)
    ensures CorrelationsOf(PandasEngine.JoinedFrame(e.AlignSeries(left, right), false), methods, windows, co) ==
      CorrelationsOf(PandasEngine.JoinedFrame(PandasEngine.Align(left, right), true), methods, windows, co)
  {
    var a, b := e.AlignSeries(left, right), PandasEngine.Align(left, right);
    AlignAgrees(e, left, right);
    var fa, fb := PandasEngine.JoinedFrame(a, false), PandasEngine.JoinedFrame(b, false);
    assert fa.data["article_count"] == fb.data["article_count"];
    assert fa.data["avg_length"] == fb.data["avg_length"];
    assert fa.data["sentiment_mean"] == fb.data["sentiment_mean"];
    assert fa.data["close"] == fb.data["close"];
    assert fa.data == fb.data;
    SameCorrelations(fa, fb, methods, windows, co);
    IndexIgnored(b, methods, windows, co);
  }

  /** The missing `index` column changes no correlation. */
  lemma IndexIgnored(rows: seq<PandasEngine.JoinedRow>, methods: Option<seq<string>>, windows: Option<seq<int>>, co: Coefficients)
    ensures CorrelationsOf(PandasEngine.JoinedFrame(rows, false), methods, windows, co) ==
      CorrelationsOf(PandasEngine.JoinedFrame(rows, true), methods, windows, co)
  {
    JoinedColumnsAgree();
    var f0, f1 := PandasEngine.JoinedFrame(rows, false), PandasEngine.JoinedFrame(rows, true);
    assert f0.data == f1.data;
    SameCorrelations(f0, f1, methods, windows, co);
  }
}
