/** The engine factory (analysis/engine/factory.py): a backend name and the
    keyword options select a configured engine. Whether the optional Dask
    and PySpark imports succeeded is a parameter. */
module Factory {
  import opened Common

  /** The keyword arguments `get_engine` reads; `None` is an absent key. */
  datatype Options = Options(
    nprocs: Option<int>,
    npartitions: Option<int>,
    distributed: Option<bool>,
    schedulerAddress: Option<string>,
    master: Option<string>,
    configs: Option<map<string, string>>)

  /** Whether the optional backend modules could be imported. */
  datatype Availability = Availability(dask: bool, spark: bool)

  /** The engine returned, with the constructor arguments it was given.
      `MultiprocessingEngine(nprocs)` records the argument only; the engine
      itself is `MpEngine.MultiprocessingEngine`, whose constructor reads it
      as `nprocs or cpu_count()`. */
  datatype Engine =
    | PandasEngine
    | MultiprocessingEngine(nprocs: Option<int>)
    | DaskEngine(npartitions: Option<int>, distributed: bool, schedulerAddress: Option<string>)
    | SparkEngine(master: Option<string>, configs: Option<map<string, string>>)

  /** The backend name under which each engine is requested. */
  function BackendOf(e: Engine): string
  {
    match e
    case PandasEngine => "pandas"
    case MultiprocessingEngine(_) => "multiprocessing"
    case DaskEngine(_, _, _) => "dask"
    case SparkEngine(_, _) => "spark"
  }

  const DaskMissing := "Dask is not available. Install dask[dataframe]."
  const SparkMissing := "PySpark is not available. Install pyspark."

  predicate Known(backend: string)
  {
    backend == "pandas" || backend == "multiprocessing" || backend == "dask" || backend == "spark"
  }

  /** `get_engine(backend, **kwargs)`. The engine returned is always of the
      kind that was asked for. */
  function GetEngine(backend: string, opts: Options, avail: Availability): (r: Result<Engine>)
    ensures r.Ok? ==> BackendOf(r.value) == backend
  {
    if backend == "pandas" then Ok(PandasEngine)
    else if backend == "multiprocessing" then Ok(MultiprocessingEngine(opts.nprocs))
    else if backend == "dask" then
      if !avail.dask then Err(ImportError(DaskMissing))
      else Ok(DaskEngine(opts.npartitions,
                         if opts.distributed.Some? then opts.distributed.value else false,
                         opts.schedulerAddress))
    else if backend == "spark" then
      if !avail.spark then Err(ImportError(SparkMissing))
      else Ok(SparkEngine(opts.master, opts.configs))
    else Err(ValueError("Unknown backend: " + backend))
  }

  /** An engine is returned exactly for a known backend whose module is
      importable; otherwise the error says why. */
  lemma GetEngineOutcome(backend: string, opts: Options, avail: Availability)
    ensures GetEngine(backend, opts, avail).Ok? <==>
      Known(backend) && (backend == "dask" ==> avail.dask) && (backend == "spark" ==> avail.spark)
    ensures !Known(backend) ==> GetEngine(backend, opts, avail) == Err(ValueError("Unknown backend: " + backend))
    ensures backend == "dask" && !avail.dask ==> GetEngine(backend, opts, avail) == Err(ImportError(DaskMissing))
    ensures backend == "spark" && !avail.spark ==> GetEngine(backend, opts, avail) == Err(ImportError(SparkMissing))
  {
  }

  /** The pandas engine takes no options and needs no optional module. */
  lemma PandasIgnoresOptions(o1: Options, a1: Availability, o2: Options, a2: Availability)
    ensures GetEngine("pandas", o1, a1) == GetEngine("pandas", o2, a2) == Ok(PandasEngine)
  {
  }

  /** Each engine receives exactly the keyword arguments meant for it, and
      `distributed` is false when not given. */
  lemma OptionsPassed(backend: string, opts: Options, avail: Availability)
    requires GetEngine(backend, opts, avail).Ok?
    ensures var e := GetEngine(backend, opts, avail).value;
      (e.MultiprocessingEngine? ==> e.nprocs == opts.nprocs) &&
      (e.DaskEngine? ==> (e.npartitions == opts.npartitions && e.schedulerAddress == opts.schedulerAddress &&
                          (e.distributed <==> opts.distributed == Some(true)))) &&
      (e.SparkEngine? ==> e.master == opts.master && e.configs == opts.configs)
  {
  }

  /** The error for an unknown backend names it, so distinct unknown names
      give distinct errors. */
  lemma UnknownNamed(b1: string, b2: string, opts: Options, avail: Availability)
    requires !Known(b1) && !Known(b2)
    requires GetEngine(b1, opts, avail) == GetEngine(b2, opts, avail)
    ensures b1 == b2
  {
    var p := "Unknown backend: ";
    assert (p + b1)[|p|..] == b1 && (p + b2)[|p|..] == b2;
  }
}
