/** Values shared by every stage of the analysis pipeline: optional values,
    results that carry a Python exception, floating-point values with their
    non-finite cases, and the cells of a table read from CSV. */
module Common {

  datatype Option<+T> = None | Some(value: T)

  /** The Python exceptions the core raises, with their messages. */
  datatype Error =
    | ValueError(msg: string)
    | KeyError(key: string)
    | ImportError(msg: string)

  /** A value or the exception raised while computing it. */
  datatype Result<+T> = Ok(value: T) | Err(error: Error)

  /** An IEEE double seen as an exact real, or one of its non-finite values. */
  datatype Float = Finite(value: real) | NaN | PosInf | NegInf

  /** A cell as pandas reads it from CSV: a missing value (NaN), a string,
      or an integer. */
  datatype Cell = Missing | Text(s: string) | Integer(i: int)

  /** The rows of `s` that satisfy `p`, in their original order. */
  function Filter<T>(s: seq<T>, p: T -> bool): (r: seq<T>)
    ensures |r| <= |s|
    ensures forall i :: 0 <= i < |r| ==> r[i] in s && p(r[i])
    ensures forall i :: 0 <= i < |s| && p(s[i]) ==> s[i] in r
  {
    if s == [] then [] else (if p(s[0]) then [s[0]] else []) + Filter(s[1..], p)
  }

  lemma {:induction false} FilterConcat<T>(a: seq<T>, b: seq<T>, p: T -> bool)
    ensures Filter(a + b, p) == Filter(a, p) + Filter(b, p)
  {
    if a == [] {
      assert a + b == b;
    } else {
      assert (a + b)[1..] == a[1..] + b;
      FilterConcat(a[1..], b, p);
    }
  }

  lemma {:induction false} FilterMultiset<T>(a: seq<T>, b: seq<T>, p: T -> bool)
    requires multiset(a) == multiset(b)
    ensures multiset(Filter(a, p)) == multiset(Filter(b, p))
  {
    MultisetFilter(a, p);
    MultisetFilter(b, p);
  }

  /** The filtered row sequence has, for each value, the same number of
      copies as the original when the value passes and none otherwise. */
  lemma {:induction false} MultisetFilter<T>(a: seq<T>, p: T -> bool)
    ensures forall x :: multiset(Filter(a, p))[x] == if p(x) then multiset(a)[x] else 0
  {
    if a != [] {
      MultisetFilter(a[1..], p);
      assert a == [a[0]] + a[1..];
      assert multiset(a) == multiset([a[0]]) + multiset(a[1..]);
    }
  }

  /** Removing the element at `j` removes one copy of it from the multiset. */
  lemma RemoveAt<T>(b: seq<T>, j: nat)
    requires j < |b|
    ensures multiset(b[..j] + b[j + 1..]) == multiset(b) - multiset{b[j]}
  {
    assert b == b[..j] + [b[j]] + b[j + 1..];
  }

  lemma RemoveFirst<T>(a: seq<T>)
    requires a != []
    ensures multiset(a[1..]) == multiset(a) - multiset{a[0]}
  {
    assert a == [a[0]] + a[1..];
  }

  /** The values `f` gives for the elements it keeps, in order. */
  function FilterMap<T, U>(f: T -> Option<U>, s: seq<T>): (r: seq<U>)
    ensures |r| <= |s|
  {
    if s == [] then [] else (if f(s[0]).Some? then [f(s[0]).value] else []) + FilterMap(f, s[1..])
  }

  lemma {:induction false} FilterMapMembers<T, U>(f: T -> Option<U>, s: seq<T>)
    ensures forall u :: u in FilterMap(f, s) <==> exists i :: 0 <= i < |s| && f(s[i]) == Some(u)
  {
    forall u | u in FilterMap(f, s)
      ensures exists i :: 0 <= i < |s| && f(s[i]) == Some(u)
    {
      var i := FilterMapSource(f, s, u);
    }
    forall u | exists i :: 0 <= i < |s| && f(s[i]) == Some(u)
      ensures u in FilterMap(f, s)
    {
      var i :| 0 <= i < |s| && f(s[i]) == Some(u);
      FilterMapKeeps(f, s, i);
    }
  }

  /** Every kept value comes from some element of the input. */
  lemma {:induction false} FilterMapSource<T, U>(f: T -> Option<U>, s: seq<T>, u: U) returns (i: nat)
    requires u in FilterMap(f, s)
    ensures i < |s| && f(s[i]) == Some(u)
  {
    var head := if f(s[0]).Some? then [f(s[0]).value] else [];
    assert FilterMap(f, s) == head + FilterMap(f, s[1..]);
    if u in head {
      i := 0;
    } else {
      var j := FilterMapSource(f, s[1..], u);
      i := j + 1;
      assert s[i] == s[1..][j];
    }
  }

  /** Every element `f` keeps contributes its value. */
  lemma {:induction false} FilterMapKeeps<T, U>(f: T -> Option<U>, s: seq<T>, i: nat)
    requires i < |s| && f(s[i]).Some?
    ensures f(s[i]).value in FilterMap(f, s)
  {
    var head := if f(s[0]).Some? then [f(s[0]).value] else [];
    assert FilterMap(f, s) == head + FilterMap(f, s[1..]);
    if i > 0 {
      assert s[1..][i - 1] == s[i];
      FilterMapKeeps(f, s[1..], i - 1);
    }
  }

  lemma {:induction false} FilterMapConcat<T, U>(f: T -> Option<U>, a: seq<T>, b: seq<T>)
    ensures FilterMap(f, a + b) == FilterMap(f, a) + FilterMap(f, b)
  {
    if a == [] {
      assert a + b == b;
    } else {
      var ab := a + b;
      assert ab[1..] == a[1..] + b && ab[0] == a[0];
      var head := if f(a[0]).Some? then [f(a[0]).value] else [];
      var fa, fb := FilterMap(f, a[1..]), FilterMap(f, b);
      calc {
        FilterMap(f, ab);
        head + FilterMap(f, a[1..] + b);
        { FilterMapConcat(f, a[1..], b); }
        head + (fa + fb);
        (head + fa) + fb;
        FilterMap(f, a) + fb;
      }
    }
  }
}
