/** The correlation stage (`compute_correlations`), whose body is the same
    in analysis/engine/backends/pandas_engine.py and
    analysis/engine/backends/mp_engine.py. A table is seen through its
    ordered column names and its numeric columns. The two coefficients are
    function parameters that may be undefined (`None`, which the code turns
    into NaN); only the structure of the result is modelled, not the
    floating-point values. */
module Correlations {
  import opened Common
  import opened Text

  /** A joined table: its column names in order, the values of its numeric
      columns, and its number of rows. */
  datatype Frame = Frame(columns: seq<string>, data: map<string, seq<Float>>, height: nat)

  /** The features the code correlates with `close`. */
  const FeatureSet: set<string> := {"article_count", "avg_length", "sentiment_mean"}

  /** Every numeric column has one value per row, and every column the stage
      reads (a feature or `close`) is numeric. */
  predicate WellFormed(f: Frame)
  {
    (forall c :: c in f.data ==> |f.data[c]| == f.height) &&
    (forall i :: 0 <= i < |f.columns| && (f.columns[i] in FeatureSet || f.columns[i] == "close") ==> f.columns[i] in f.data)
  }

  /** `np.corrcoef(x, y)[0, 1]` and `stats.spearmanr(x, y, nan_policy="omit")`,
      with `None` for a result that is not a number. */
  datatype Coefficients = Coefficients(
    pearson: (seq<Float>, seq<Float>) -> Option<real>,
    spearman: (seq<Float>, seq<Float>) -> Option<real>)

  /** A value of the result: a map feature -> coefficient for a method, or
      the map `str(win)` -> feature -> coefficient under `"rolling"`. */
  datatype Entry = Static(coefs: map<string, Float>) | Rolling(windows: map<string, map<string, Float>>)

  /** `float(coef) if pd.notnull(coef) else np.nan`. */
  function AsFloat(c: Option<real>): Float
  {
    if c.Some? then Finite(c.value) else NaN
  }

  const DefaultMethods: seq<string> := ["pearson", "spearman"]
  const DefaultWindows: seq<int> := [7, 14, 30]

  /** `methods or ["pearson", "spearman"]`: `None` and `[]` are both falsy. */
  function MethodsOrDefault(methods: Option<seq<string>>): (ms: seq<string>)
    ensures ms != []
    ensures methods.Some? && methods.value != [] ==> ms == methods.value
  {
    if methods.None? || methods.value == [] then DefaultMethods else methods.value
  }

  /** `rolling_windows or [7, 14, 30]`. */
  function WindowsOrDefault(windows: Option<seq<int>>): (ws: seq<int>)
    ensures ws != []
    ensures windows.Some? && windows.value != [] ==> ws == windows.value
  {
    if windows.None? || windows.value == [] then DefaultWindows else windows.value
  }

  predicate IsFeature(c: string)
  {
    c in FeatureSet
  }

  /** `feature_cols`: the table's columns that are features, in table order. */
  function FeatureCols(columns: seq<string>): (fs: seq<string>)
    ensures forall i :: 0 <= i < |fs| ==> fs[i] in columns && fs[i] in FeatureSet
    ensures forall i :: 0 <= i < |columns| && columns[i] in FeatureSet ==> columns[i] in fs
  {
    Filter(columns, IsFeature)
  }

  /** The feature columns of a well-formed table are numeric columns. */
  lemma FeatureColsNumeric(f: Frame)
    requires WellFormed(f)
    ensures forall c :: c in FeatureCols(f.columns) ==> c in f.data && |f.data[c]| == f.height
  {
    var fs := FeatureCols(f.columns);
    forall c | c in fs
      ensures c in f.data
    {
      var k :| 0 <= k < |fs| && fs[k] == c;
      var i :| 0 <= i < |f.columns| && f.columns[i] == c;
    }
  }

  /** The value for the last row of `rolling(win).corr(close)`: NaN for an
      empty table, NaN while fewer than `win` rows exist, NaN for a window of
      0 (every window is empty), and otherwise the correlation over the last
      `win` rows. */
  function RollingLast(xs: seq<Float>, ys: seq<Float>, win: int, co: Coefficients): Float
    requires |xs| == |ys| && win >= 0
  {
    if |xs| == 0 || |xs| < win || win == 0 then NaN
    else AsFloat(co.pearson(xs[|xs| - win..], ys[|ys| - win..]))
  }

  /** The coefficient method `m` gives, or nothing for a method the code
      does not know (its `continue`). */
  function MethodCoef(m: string, xs: seq<Float>, ys: seq<Float>, co: Coefficients): Option<Float>
  {
    if m == "pearson" then Some(AsFloat(co.pearson(xs, ys)))
    else if m == "spearman" then Some(AsFloat(co.spearman(xs, ys)))
    else None
  }

  /** `m_res` after the inner loop has seen the features `fs`. */
  function MethodFold(f: Frame, m: string, fs: seq<string>, co: Coefficients): map<string, Float>
    requires "close" in f.data && forall c :: c in fs ==> c in f.data
    decreases |fs|
  {
    if fs == [] then map[]
    else
      var acc := MethodFold(f, m, fs[..|fs| - 1], co);
      var c := fs[|fs| - 1];
      var coef := MethodCoef(m, f.data[c], f.data["close"], co);
      if coef.Some? then acc[c := coef.value] else acc
  }

  /** `roll_res` for window `win` after the inner loop has seen `fs`. */
  function WindowFold(f: Frame, win: int, fs: seq<string>, co: Coefficients): map<string, Float>
    requires WellFormed(f) && "close" in f.data && forall c :: c in fs ==> c in f.data
    requires fs == [] || win >= 0
    decreases |fs|
  {
    if fs == [] then map[]
    else
      var c := fs[|fs| - 1];
      WindowFold(f, win, fs[..|fs| - 1], co)[c := RollingLast(f.data[c], f.data["close"], win, co)]
  }

  /** `rolling` after the window loop has seen `ws`. */
  function RollingFold(f: Frame, ws: seq<int>, fs: seq<string>, co: Coefficients): map<string, map<string, Float>>
    requires WellFormed(f) && "close" in f.data && forall c :: c in fs ==> c in f.data
    requires fs == [] || forall i :: 0 <= i < |ws| ==> ws[i] >= 0
    decreases |ws|
  {
    if ws == [] then map[]
    else
      var w := ws[|ws| - 1];
      RollingFold(f, ws[..|ws| - 1], fs, co)[IntToString(w) := WindowFold(f, w, fs, co)]
  }

  /** `results` after the method loop has seen `ms`. */
  function MethodsFold(f: Frame, ms: seq<string>, fs: seq<string>, co: Coefficients): map<string, Entry>
    requires "close" in f.data && forall c :: c in fs ==> c in f.data
    decreases |ms|
  {
    if ms == [] then map[]
    else
      var m := ms[|ms| - 1];
      MethodsFold(f, ms[..|ms| - 1], fs, co)[m := Static(MethodFold(f, m, fs, co))]
  }

  predicate HasNegative(ws: seq<int>)
  {
    exists i :: 0 <= i < |ws| && ws[i] < 0
  }

  const BadWindow := "window must be an integer 0 or greater"

  /** What `compute_correlations` returns or raises. */
  function CorrelationsOf(f: Frame, methods: Option<seq<string>>, windows: Option<seq<int>>, co: Coefficients): Result<map<string, Entry>>
    requires WellFormed(f)
  {
    var ms, ws, fs := MethodsOrDefault(methods), WindowsOrDefault(windows), FeatureCols(f.columns);
    if "close" !in f.columns then Err(KeyError("close"))
    else if fs != [] && HasNegative(ws) then Err(ValueError(BadWindow))
    else
      FeatureColsNumeric(f);
      assert "close" in f.data by {
        var i :| 0 <= i < |f.columns| && f.columns[i] == "close";
      }
      Ok(MethodsFold(f, ms, fs, co)["rolling" := Rolling(RollingFold(f, ws, fs, co))])
  }

  /** The inner loop of one method: `m_res`. */
  method MethodResult(f: Frame, m: string, fs: seq<string>, co: Coefficients) returns (mRes: map<string, Float>)
    requires "close" in f.data && forall c :: c in fs ==> c in f.data
    ensures mRes == MethodFold(f, m, fs, co)
  {
    var close := f.data["close"];
    mRes := map[];
    for j := 0 to |fs|
      invariant mRes == MethodFold(f, m, fs[..j], co)
    {
      assert fs[..j + 1][..j] == fs[..j];
      var series := f.data[fs[j]];
      var coef: Float;
      if m == "pearson" {
        coef := AsFloat(co.pearson(series, close));
      } else if m == "spearman" {
        coef := AsFloat(co.spearman(series, close));
      } else {
        continue;
      }
      mRes := mRes[fs[j] := coef];
    }
    assert fs[..|fs|] == fs;
  }

  /** The inner loop of one window: `roll_res`, or the error pandas raises
      for a negative window at the first feature. */
  method WindowResult(f: Frame, win: int, fs: seq<string>, co: Coefficients) returns (r: Result<map<string, Float>>)
    requires WellFormed(f) && "close" in f.data && forall c :: c in fs ==> c in f.data
    ensures r.Err? <==> fs != [] && win < 0
    ensures r.Err? ==> r.error == ValueError(BadWindow)
    ensures r.Ok? ==> r.value == WindowFold(f, win, fs, co)
  {
    var close := f.data["close"];
    var rollRes: map<string, Float> := map[];
    for j := 0 to |fs|
      invariant j > 0 ==> win >= 0
      invariant rollRes == WindowFold(f, win, fs[..j], co)
    {
      if win < 0 {
        return Err(ValueError(BadWindow));
      }
      assert fs[..j + 1][..j] == fs[..j];
      var series := f.data[fs[j]];
      rollRes := rollRes[fs[j] := if |series| != 0 then RollingLast(series, close, win, co) else NaN];
    }
    assert fs[..|fs|] == fs;
    return Ok(rollRes);
  }

  /** The window loop: `rolling`, keyed by `str(win)`. */
  method RollingResult(f: Frame, ws: seq<int>, fs: seq<string>, co: Coefficients) returns (r: Result<map<string, map<string, Float>>>)
    requires WellFormed(f) && "close" in f.data && forall c :: c in fs ==> c in f.data
    ensures r.Err? <==> fs != [] && HasNegative(ws)
    ensures r.Err? ==> r.error == ValueError(BadWindow)
    ensures r.Ok? ==> r.value == RollingFold(f, ws, fs, co)
  {
    var rolling: map<string, map<string, Float>> := map[];
    for k := 0 to |ws|
      invariant forall i :: 0 <= i < k ==> fs == [] || ws[i] >= 0
      invariant rolling == RollingFold(f, ws[..k], fs, co)
    {
      var rollRes := WindowResult(f, ws[k], fs, co);
      if rollRes.Err? {
        assert ws[k] < 0;
        return Err(rollRes.error);
      }
      RollingFoldSnoc(f, ws, fs, co, k);
      rolling := rolling[IntToString(ws[k]) := rollRes.value];
    }
    assert ws[..|ws|] == ws;
    return Ok(rolling);
  }

  /** One more window adds its key to `rolling`. */
  lemma RollingFoldSnoc(f: Frame, ws: seq<int>, fs: seq<string>, co: Coefficients, k: nat)
    requires WellFormed(f) && "close" in f.data && forall c :: c in fs ==> c in f.data
    requires k < |ws| && (fs == [] || forall i :: 0 <= i <= k ==> ws[i] >= 0)
    ensures RollingFold(f, ws[..k + 1], fs, co) == RollingFold(f, ws[..k], fs, co)[IntToString(ws[k]) := WindowFold(f, ws[k], fs, co)]
  {
    assert ws[..k + 1][..k] == ws[..k];
  }

  /** `compute_correlations`: the method loop filling `results`, then the
      window loop filling `rolling`. */
  method ComputeCorrelations(f: Frame, methods: Option<seq<string>>, windows: Option<seq<int>>, co: Coefficients)
    returns (r: Result<map<string, Entry>>)
    requires WellFormed(f)
    ensures r.Err? <==> "close" !in f.columns || (FeatureCols(f.columns) != [] && HasNegative(WindowsOrDefault(windows)))
    ensures r == CorrelationsOf(f, methods, windows, co)
  {
    var ms := MethodsOrDefault(methods);
    var ws := WindowsOrDefault(windows);
    var results: map<string, Entry> := map[];
    var fs := FeatureCols(f.columns);
    if "close" !in f.columns {
      return Err(KeyError("close"));
    }
    FeatureColsNumeric(f);
    assert "close" in f.data by {
      var i :| 0 <= i < |f.columns| && f.columns[i] == "close";
    }
    for k := 0 to |ms|
      invariant results == MethodsFold(f, ms[..k], fs, co)
    {
      var mRes := MethodResult(f, ms[k], fs, co);
      assert ms[..k + 1][..k] == ms[..k];
      results := results[ms[k] := Static(mRes)];
    }
    assert ms[..|ms|] == ms;
    var rolling := RollingResult(f, ws, fs, co);
    if rolling.Err? {
      return Err(rolling.error);
    }
    return Ok(results["rolling" := Rolling(rolling.value)]);
  }

  // ----- properties of the result -----

  predicate KnownMethod(m: string)
  {
    m == "pearson" || m == "spearman"
  }

  /** A known method has a coefficient for every feature; an unknown one
      gives the empty map. */
  lemma {:induction false} MethodFoldSpec(f: Frame, m: string, fs: seq<string>, co: Coefficients)
    requires "close" in f.data && forall c :: c in fs ==> c in f.data
    ensures var r := MethodFold(f, m, fs, co);
      (KnownMethod(m) ==>
        (forall c :: c in r <==> c in fs) &&
        (forall c :: c in r ==> Some(r[c]) == MethodCoef(m, f.data[c], f.data["close"], co))) &&
      (!KnownMethod(m) ==> r == map[])
    decreases |fs|
  {
    if fs != [] {
      var init := fs[..|fs| - 1];
      MethodFoldSpec(f, m, init, co);
      assert fs == init + [fs[|fs| - 1]];
    }
  }

  /** Every feature gets the rolling value of its column for this window. */
  lemma {:induction false} WindowFoldSpec(f: Frame, win: int, fs: seq<string>, co: Coefficients)
    requires WellFormed(f) && "close" in f.data && forall c :: c in fs ==> c in f.data
    requires fs == [] || win >= 0
    ensures var r := WindowFold(f, win, fs, co);
      (forall c :: c in r <==> c in fs) &&
      (forall c :: c in r ==> win >= 0 && r[c] == RollingLast(f.data[c], f.data["close"], win, co))
    decreases |fs|
  {
    if fs != [] {
      var init := fs[..|fs| - 1];
      WindowFoldSpec(f, win, init, co);
      assert fs == init + [fs[|fs| - 1]];
    }
  }

  /** The rolling map has the key `str(w)` for exactly the requested windows. */
  lemma RollingFoldKeys(f: Frame, ws: seq<int>, fs: seq<string>, co: Coefficients)
    requires WellFormed(f) && "close" in f.data && forall c :: c in fs ==> c in f.data
    requires fs == [] || forall i :: 0 <= i < |ws| ==> ws[i] >= 0
    ensures forall k :: k in RollingFold(f, ws, fs, co) <==> exists i :: 0 <= i < |ws| && IntToString(ws[i]) == k
  {
    forall k | k in RollingFold(f, ws, fs, co)
      ensures exists i :: 0 <= i < |ws| && IntToString(ws[i]) == k
    {
      var i := RollingFoldSource(f, ws, fs, co, k);
    }
    forall k | exists i :: 0 <= i < |ws| && IntToString(ws[i]) == k
      ensures k in RollingFold(f, ws, fs, co)
    {
      var i :| 0 <= i < |ws| && IntToString(ws[i]) == k;
      RollingFoldAt(f, ws, fs, co, i);
    }
  }

  /** Every key of the rolling map names one of the requested windows. */
  lemma {:induction false} RollingFoldSource(f: Frame, ws: seq<int>, fs: seq<string>, co: Coefficients, k: string) returns (i: nat)
    requires WellFormed(f) && "close" in f.data && forall c :: c in fs ==> c in f.data
    requires fs == [] || forall i :: 0 <= i < |ws| ==> ws[i] >= 0
    requires k in RollingFold(f, ws, fs, co)
    ensures i < |ws| && IntToString(ws[i]) == k
    decreases |ws|
  {
    var init := ws[..|ws| - 1];
    if k == IntToString(ws[|ws| - 1]) {
      i := |ws| - 1;
    } else {
      i := RollingFoldSource(f, init, fs, co, k);
      assert ws[i] == init[i];
    }
  }

  /** Since `str` is injective, the key `str(w)` holds window `w`'s results
      even when other windows come later. */
  lemma {:induction false} RollingFoldAt(f: Frame, ws: seq<int>, fs: seq<string>, co: Coefficients, i: nat)
    requires WellFormed(f) && "close" in f.data && forall c :: c in fs ==> c in f.data
    requires fs == [] || forall i :: 0 <= i < |ws| ==> ws[i] >= 0
    requires i < |ws|
    ensures IntToString(ws[i]) in RollingFold(f, ws, fs, co)
    ensures RollingFold(f, ws, fs, co)[IntToString(ws[i])] == WindowFold(f, ws[i], fs, co)
    decreases |ws|
  {
    var init := ws[..|ws| - 1];
    var w := ws[|ws| - 1];
    if i < |init| {
      assert init[i] == ws[i];
      RollingFoldAt(f, init, fs, co, i);
      if IntToString(ws[i]) == IntToString(w) {
        IntToStringInjective(ws[i], w);
      }
    }
  }

  /** `results` has an entry for exactly the requested methods. */
  lemma {:induction false} MethodsFoldKeys(f: Frame, ms: seq<string>, fs: seq<string>, co: Coefficients)
    requires "close" in f.data && forall c :: c in fs ==> c in f.data
    ensures forall m :: m in MethodsFold(f, ms, fs, co) <==> m in ms
    decreases |ms|
  {
    if ms != [] {
      var init := ms[..|ms| - 1];
      MethodsFoldKeys(f, init, fs, co);
      assert ms == init + [ms[|ms| - 1]];
    }
  }

  /** Each requested method's entry is that method's coefficient map. */
  lemma {:induction false} MethodsFoldAt(f: Frame, ms: seq<string>, fs: seq<string>, co: Coefficients, m: string)
    requires "close" in f.data && forall c :: c in fs ==> c in f.data
    requires m in ms
    ensures m in MethodsFold(f, ms, fs, co) && MethodsFold(f, ms, fs, co)[m] == Static(MethodFold(f, m, fs, co))
    decreases |ms|
  {
    var init := ms[..|ms| - 1];
    if m != ms[|ms| - 1] {
      assert ms == init + [ms[|ms| - 1]];
      MethodsFoldAt(f, init, fs, co, m);
    }
  }

  /** The numeric columns the stage reads, once `close` is known to exist. */
  lemma Readable(f: Frame)
    requires WellFormed(f) && "close" in f.columns
    ensures "close" in f.data && forall c :: c in FeatureCols(f.columns) ==> c in f.data
  {
    FeatureColsNumeric(f);
    var i :| 0 <= i < |f.columns| && f.columns[i] == "close";
  }

  /** The result is defined exactly when `close` exists and no requested
      window is negative (a negative window only raises when there is a
      feature to correlate). */
  lemma CorrelationsDefined(f: Frame, methods: Option<seq<string>>, windows: Option<seq<int>>, co: Coefficients)
    requires WellFormed(f)
    ensures CorrelationsOf(f, methods, windows, co).Ok? <==>
      "close" in f.columns && (FeatureCols(f.columns) == [] || !HasNegative(WindowsOrDefault(windows)))
    ensures "close" !in f.columns ==> CorrelationsOf(f, methods, windows, co) == Err(KeyError("close"))
  {
  }

  /** A defined result has an entry for every requested method and for
      `"rolling"`, and nothing else; `"rolling"` holds the window map, keyed
      by `str(w)` for exactly the requested windows. */
  lemma CorrelationsKeys(f: Frame, methods: Option<seq<string>>, windows: Option<seq<int>>, co: Coefficients)
    requires WellFormed(f) && CorrelationsOf(f, methods, windows, co).Ok?
    ensures var r := CorrelationsOf(f, methods, windows, co).value;
      var ms, ws := MethodsOrDefault(methods), WindowsOrDefault(windows);
      (forall k :: k in r <==> k in ms || k == "rolling") &&
      r["rolling"].Rolling? &&
      (forall k :: k in r["rolling"].windows <==> exists i :: 0 <= i < |ws| && IntToString(ws[i]) == k)
  {
    Readable(f);
    var fs := FeatureCols(f.columns);
    MethodsFoldKeys(f, MethodsOrDefault(methods), fs, co);
    RollingFoldKeys(f, WindowsOrDefault(windows), fs, co);
  }

  /** The entry of a requested method (other than `"rolling"`, which the
      window map overwrites): for `pearson` and `spearman` the coefficient of
      every feature column and of nothing else; for any other name the
      empty map. */
  lemma MethodEntry(f: Frame, methods: Option<seq<string>>, windows: Option<seq<int>>, co: Coefficients, m: string)
    requires WellFormed(f) && CorrelationsOf(f, methods, windows, co).Ok?
    requires m in MethodsOrDefault(methods) && m != "rolling"
    ensures var r := CorrelationsOf(f, methods, windows, co).value;
      var fs := FeatureCols(f.columns);
      m in r && r[m].Static? &&
      (!KnownMethod(m) ==> r[m].coefs == map[]) &&
      (KnownMethod(m) ==>
        (forall c :: c in r[m].coefs <==> c in fs) &&
        (forall c :: c in r[m].coefs ==>
          (c in f.data && "close" in f.data &&
           Some(r[m].coefs[c]) == MethodCoef(m, f.data[c], f.data["close"], co))))
  {
    Readable(f);
    var fs := FeatureCols(f.columns);
    MethodsFoldAt(f, MethodsOrDefault(methods), fs, co, m);
    MethodFoldSpec(f, m, fs, co);
  }

  /** The entry of requested window `ws[i]`: every feature column, and
      nothing else, mapped to the last value of its rolling correlation
      with `close` over `ws[i]` rows. */
  lemma RollingEntry(f: Frame, methods: Option<seq<string>>, windows: Option<seq<int>>, co: Coefficients, i: nat)
    requires WellFormed(f) && CorrelationsOf(f, methods, windows, co).Ok?
    requires i < |WindowsOrDefault(windows)|
    ensures var r := CorrelationsOf(f, methods, windows, co).value;
      var w, fs := WindowsOrDefault(windows)[i], FeatureCols(f.columns);
      r["rolling"].Rolling? && IntToString(w) in r["rolling"].windows &&
      var roll := r["rolling"].windows[IntToString(w)];
      (forall c :: c in roll <==> c in fs) &&
      (forall c :: c in roll ==>
        (w >= 0 && c in f.data && "close" in f.data &&
         roll[c] == RollingLast(f.data[c], f.data["close"], w, co)))
  {
    Readable(f);
    var ws, fs := WindowsOrDefault(windows), FeatureCols(f.columns);
    if fs != [] {
      forall j | 0 <= j < |ws|
        ensures ws[j] >= 0
      {
      }
    }
    RollingFoldAt(f, ws, fs, co, i);
    if fs != [] {
      assert ws[i] >= 0;
    }
    WindowFoldSpec(f, ws[i], fs, co);
  }

  /** With fewer rows than the window, none at all, or a window of 0, every
      rolling value of that window is NaN. */
  lemma ShortHistory(f: Frame, methods: Option<seq<string>>, windows: Option<seq<int>>, co: Coefficients, i: nat)
    requires WellFormed(f) && CorrelationsOf(f, methods, windows, co).Ok?
    requires i < |WindowsOrDefault(windows)|
    requires f.height == 0 || f.height < WindowsOrDefault(windows)[i] || WindowsOrDefault(windows)[i] == 0
    ensures var r := CorrelationsOf(f, methods, windows, co).value;
      var key := IntToString(WindowsOrDefault(windows)[i]);
      r["rolling"].Rolling? && key in r["rolling"].windows &&
      forall c :: c in r["rolling"].windows[key] ==> r["rolling"].windows[key][c] == NaN
  {
    RollingEntry(f, methods, windows, co, i);
  }

  /** `None` and the empty list both select the defaults. */
  lemma DefaultsApply(f: Frame, co: Coefficients)
    requires WellFormed(f)
    ensures CorrelationsOf(f, None, None, co) == CorrelationsOf(f, Some([]), Some([]), co)
    ensures CorrelationsOf(f, None, None, co) == CorrelationsOf(f, Some(["pearson", "spearman"]), Some([7, 14, 30]), co)
  {
  }
}
