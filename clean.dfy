/** `clean_results` (analysis_service/app.py): the service's JSON
    sanitiser, which replaces NaN and infinities by `None` throughout nested
    dicts and lists. */
module CleanResults {
  import opened Common

  /** The Python values a result tree is built from. `NpFloat` is a numpy
      floating scalar; `float64` marks `np.float64`, which is also a
      subclass of Python's `float`. A dict is its items in insertion order. */
  datatype PyValue =
    | PyNone
    | PyBool(b: bool)
    | PyInt(i: int)
    | PyFloat(f: Float)
    | NpFloat(x: Float, float64: bool)
    | NpInt(n: int)
    | PyStr(s: string)
    | PyList(elems: seq<PyValue>)
    | PyTuple(parts: seq<PyValue>)
    | PyDict(items: seq<(string, PyValue)>)

  /** `clean_results(obj)`. */
  function Clean(v: PyValue): (r: PyValue)
    ensures v.PyDict? ==> (r.PyDict? && |r.items| == |v.items| &&
      forall i :: 0 <= i < |v.items| ==> r.items[i].0 == v.items[i].0 && r.items[i].1 == Clean(v.items[i].1))
    ensures v.PyList? ==> (r.PyList? && |r.elems| == |v.elems| &&
      forall i :: 0 <= i < |v.elems| ==> r.elems[i] == Clean(v.elems[i]))
    ensures (v.PyFloat? && !v.f.Finite?) || (v.NpFloat? && !v.x.Finite?) ==> r == PyNone
    ensures v.PyTuple? || v.PyNone? || v.PyBool? || v.PyInt? || v.PyStr? ==> r == v
    decreases v
  {
    match v
    case PyDict(items) =>
      PyDict(seq(|items|, i requires 0 <= i < |items| => (items[i].0, Clean(items[i].1))))
    case PyList(elems) =>
      PyList(seq(|elems|, i requires 0 <= i < |elems| => Clean(elems[i])))
    case PyFloat(f) => if f.Finite? then v else PyNone
    case NpFloat(x, float64) =>
      if !x.Finite? then PyNone
      else if float64 then v
      else PyFloat(x)
    case NpInt(n) => PyInt(n)
    case _ => v
  }

  /** No NaN or infinity is reachable through dicts and lists (tuples are
      opaque to the sanitiser, so they are not looked into). */
  predicate JsonSafe(v: PyValue)
    decreases v
  {
    match v
    case PyFloat(f) => f.Finite?
    case NpFloat(x, _) => x.Finite?
    case PyList(elems) => forall i :: 0 <= i < |elems| ==> JsonSafe(elems[i])
    case PyDict(items) => forall i :: 0 <= i < |items| ==> JsonSafe(items[i].1)
    case _ => true
  }

  /** No numpy scalar apart from `np.float64` is reachable through dicts and
      lists. */
  predicate NumpyFree(v: PyValue)
    decreases v
  {
    match v
    case NpFloat(_, float64) => float64
    case NpInt(_) => false
    case PyList(elems) => forall i :: 0 <= i < |elems| ==> NumpyFree(elems[i])
    case PyDict(items) => forall i :: 0 <= i < |items| ==> NumpyFree(items[i].1)
    case _ => true
  }

  /** The value with each numpy scalar read as the Python number it equals. */
  function AsPython(v: PyValue): (r: PyValue)
    decreases v
  {
    match v
    case NpFloat(x, _) => PyFloat(x)
    case NpInt(n) => PyInt(n)
    case PyList(elems) => PyList(seq(|elems|, i requires 0 <= i < |elems| => AsPython(elems[i])))
    case PyDict(items) => PyDict(seq(|items|, i requires 0 <= i < |items| => (items[i].0, AsPython(items[i].1))))
    case _ => v
  }

  /** After cleaning, no NaN or infinity is left and every numpy scalar
      apart from `np.float64` has become a Python number. */
  lemma {:induction false} CleanSafe(v: PyValue)
    ensures JsonSafe(Clean(v)) && NumpyFree(Clean(v))
    decreases v
  {
    match v
    case PyList(elems) =>
      forall i | 0 <= i < |elems|
        ensures JsonSafe(Clean(v).elems[i]) && NumpyFree(Clean(v).elems[i])
      {
        CleanSafe(elems[i]);
      }
    case PyDict(items) =>
      forall i | 0 <= i < |items|
        ensures JsonSafe(Clean(v).items[i].1) && NumpyFree(Clean(v).items[i].1)
      {
        CleanSafe(items[i].1);
      }
    case _ =>
  }

  /** A value that is already safe and has no numpy scalars to convert is
      left as it is. */
  lemma {:induction false} CleanFixes(v: PyValue)
    requires JsonSafe(v) && NumpyFree(v)
    ensures Clean(v) == v
    decreases v
  {
    match v
    case PyList(elems) =>
      forall i | 0 <= i < |elems|
        ensures Clean(v).elems[i] == elems[i]
      {
        CleanFixes(elems[i]);
      }
    case PyDict(items) =>
      forall i | 0 <= i < |items|
        ensures Clean(v).items[i] == items[i]
      {
        CleanFixes(items[i].1);
      }
    case _ =>
  }

  /** Cleaning twice is cleaning once. */
  lemma CleanIdempotent(v: PyValue)
    ensures Clean(Clean(v)) == Clean(v)
  {
    CleanSafe(v);
    CleanFixes(Clean(v));
  }

  /** On a safe value, cleaning only changes how numbers are represented,
      never what they are. */
  lemma {:induction false} CleanKeepsNumbers(v: PyValue)
    requires JsonSafe(v)
    ensures AsPython(Clean(v)) == AsPython(v)
    decreases v
  {
    match v
    case PyList(elems) =>
      forall i | 0 <= i < |elems|
        ensures AsPython(Clean(v)).elems[i] == AsPython(v).elems[i]
      {
        CleanKeepsNumbers(elems[i]);
      }
    case PyDict(items) =>
      forall i | 0 <= i < |items|
        ensures AsPython(Clean(v)).items[i] == AsPython(v).items[i]
      {
        CleanKeepsNumbers(items[i].1);
      }
    case _ =>
  }
}
