/** The date normaliser `to_date` (analysis/utils/date.py): three textual
    shapes of a calendar date become the canonical `YYYY-MM-DD` key, and
    anything else becomes `None`. Python's `datetime` validation is modelled
    by `ValidDate` (years 1..9999, the Gregorian month lengths). */
module DateParse {
  import opened Common
  import opened Text

  datatype Date = Date(year: nat, month: nat, day: nat)

  predicate IsLeap(y: nat)
  {
    y % 4 == 0 && (y % 100 != 0 || y % 400 == 0)
  }

  function DaysInMonth(y: nat, m: nat): (n: nat)
    requires 1 <= m <= 12
    ensures 28 <= n <= 31
  {
    if m == 2 then (if IsLeap(y) then 29 else 28)
    else if m == 4 || m == 6 || m == 9 || m == 11 then 30
    else 31
  }

  /** What `datetime(year, month, day)` accepts. */
  predicate ValidDate(d: Date)
  {
    1 <= d.year <= 9999 && 1 <= d.month <= 12 && 1 <= d.day <= DaysInMonth(d.year, d.month)
  }

  /** `strftime("%Y-%m-%d")`, with the year zero-padded to four digits. */
  function Format(d: Date): (s: string)
    ensures |s| == 10
  {
    FixedDigits(d.year, 4) + "-" + FixedDigits(d.month, 2) + "-" + FixedDigits(d.day, 2)
  }

  /** The same date written `DD/MM/YYYY`. */
  function DmyText(d: Date): (s: string)
    ensures |s| == 10
  {
    FixedDigits(d.day, 2) + "/" + FixedDigits(d.month, 2) + "/" + FixedDigits(d.year, 4)
  }

  /** The month-name lexicon `_MONTHS`. */
  const Months: map<string, nat> := map[
    "enero" := 1, "febrero" := 2, "marzo" := 3, "abril" := 4,
    "mayo" := 5, "junio" := 6, "julio" := 7, "agosto" := 8,
    "septiembre" := 9, "octubre" := 10, "noviembre" := 11, "diciembre" := 12]

  /** The lexicon's name of month `m`. */
  function MonthName(m: nat): (name: string)
    requires 1 <= m <= 12
  {
    if m == 1 then "enero" else if m == 2 then "febrero" else if m == 3 then "marzo"
    else if m == 4 then "abril" else if m == 5 then "mayo" else if m == 6 then "junio"
    else if m == 7 then "julio" else if m == 8 then "agosto" else if m == 9 then "septiembre"
    else if m == 10 then "octubre" else if m == 11 then "noviembre" else "diciembre"
  }

  // ----- the three shapes -----

  /** `re.match(r"^\d{4}-\d{2}-\d{2}$", v)`, with `\d` read as the ASCII
      digits `0-9` only (Python's `\d` also matches other Unicode decimal
      digits). */
  predicate IsoShape(v: string)
  {
    |v| == 10 && AllDigits(v[..4]) && v[4] == '-' && AllDigits(v[5..7]) && v[7] == '-' && AllDigits(v[8..])
  }

  /** The fields `strptime(v, "%Y-%m-%d")` reads. */
  function IsoDate(v: string): Date
    requires IsoShape(v)
  {
    Date(DigitsValue(v[..4]), DigitsValue(v[5..7]), DigitsValue(v[8..]))
  }

  /** `re.match(r"^\d{2}/\d{2}/\d{4}$", v)`, ASCII digits only. */
  predicate DmyShape(v: string)
  {
    |v| == 10 && AllDigits(v[..2]) && v[2] == '/' && AllDigits(v[3..5]) && v[5] == '/' && AllDigits(v[6..])
  }

  /** The fields `strptime(v, "%d/%m/%Y")` reads. */
  function DmyDate(v: string): Date
    requires DmyShape(v)
  {
    Date(DigitsValue(v[6..]), DigitsValue(v[3..5]), DigitsValue(v[..2]))
  }

  /** The letters `[a-záéíóú]` of the long form's month group. */
  predicate IsMonthLetter(c: char)
  {
    ('a' <= c <= 'z') || c == '\U{00E1}' || c == '\U{00E9}' || c == '\U{00ED}' || c == '\U{00F3}' || c == '\U{00FA}'
  }

  /** The chained `.replace` that folds accented vowels. */
  function FoldChar(c: char): char
  {
    if c == '\U{00E1}' then 'a'
    else if c == '\U{00E9}' then 'e'
    else if c == '\U{00ED}' then 'i'
    else if c == '\U{00F3}' then 'o'
    else if c == '\U{00FA}' then 'u'
    else c
  }

  function FoldAccents(s: string): (r: string)
    ensures |r| == |s| && forall i :: 0 <= i < |s| ==> r[i] == FoldChar(s[i])
  {
    if s == [] then [] else [FoldChar(s[0])] + FoldAccents(s[1..])
  }

  /** The character classes of the long-form pattern: `\d` (here the ASCII
      digits `0-9` only), `\s` and `[a-záéíóú]`. */
  datatype CharClass = DigitClass | SpaceClass | MonthClass

  predicate InClass(c: char, cls: CharClass)
  {
    match cls
    case DigitClass => IsDigit(c)
    case SpaceClass => IsSpace(c)
    case MonthClass => IsMonthLetter(c)
  }

  /** The longest prefix of `s` whose characters are in class `cls`. */
  function TakeWhile(s: string, cls: CharClass): (r: string)
    ensures |r| <= |s|
    ensures |r| == |s| || !InClass(s[|r|], cls)
  {
    if s != [] && InClass(s[0], cls) then [s[0]] + TakeWhile(s[1..], cls) else []
  }

  /** Every character of the run is in the class, and the run is a prefix. */
  lemma {:induction false} TakeWhileInClass(s: string, cls: CharClass)
    ensures var r := TakeWhile(s, cls); r == s[..|r|] && forall k :: 0 <= k < |r| ==> InClass(r[k], cls)
  {
    if s != [] && InClass(s[0], cls) {
      TakeWhileInClass(s[1..], cls);
    }
  }

  /** The groups of the long form `"<day> de <month> de <year>"`. */
  datatype LongMatch = LongMatch(day: string, month: string, year: string)

  /** `\s+` at the start of `s`: what follows a non-empty whitespace run. */
  function SkipSpaces(s: string): (r: Option<string>)
    ensures r.Some? ==> |r.value| < |s|
  {
    var sp := TakeWhile(s, SpaceClass);
    if sp == [] then None else Some(s[|sp|..])
  }

  /** `\s+de\s+` at the start of `s`: what follows it. */
  function SkipDe(s: string): (r: Option<string>)
  {
    match SkipSpaces(s)
    case None => None
    case Some(t) =>
      if StartsWith(t, "de") then SkipSpaces(t[2..]) else None
  }

  /** `re.match(r"^(\d{1,2})\s+de\s+([a-záéíóú]+)\s+de\s+(\d{4})$", v)`.
      The pattern has no ambiguity (each group and each whitespace run is
      followed by a character it cannot contain), so the match is found by
      consuming maximal runs from the left. */
  function MatchLong(v: string): Option<LongMatch>
  {
    var day := TakeWhile(v, DigitClass);
    if 1 <= |day| <= 2 then MatchAfterDay(day, v[|day|..]) else None
  }

  /** The rest of the pattern after the day group: `\s+de\s+` and the month. */
  function MatchAfterDay(day: string, r: string): Option<LongMatch>
  {
    match SkipDe(r)
    case None => None
    case Some(t) =>
      var month := TakeWhile(t, MonthClass);
      if month == [] then None else MatchAfterMonth(day, month, t[|month|..])
  }

  /** The rest of the pattern after the month group: `\s+de\s+` and the year. */
  function MatchAfterMonth(day: string, month: string, r: string): Option<LongMatch>
  {
    match SkipDe(r)
    case None => None
    case Some(year) =>
      if |year| == 4 && AllDigits(year) then Some(LongMatch(day, month, year)) else None
  }

  /** The groups a match returns have the shapes the pattern gives them. */
  lemma MatchLongShape(v: string)
    requires MatchLong(v).Some?
    ensures var g := MatchLong(v).value;
      1 <= |g.day| <= 2 && AllDigits(g.day) && |g.year| == 4 && AllDigits(g.year) &&
      g.month != [] && forall k :: 0 <= k < |g.month| ==> IsMonthLetter(g.month[k])
  {
    var day := TakeWhile(v, DigitClass);
    TakeWhileInClass(v, DigitClass);
    AfterDayShape(day, v[|day|..]);
  }

  lemma AfterDayShape(day: string, r: string)
    requires MatchAfterDay(day, r).Some?
    ensures var g := MatchAfterDay(day, r).value;
      g.day == day && |g.year| == 4 && AllDigits(g.year) &&
      g.month != [] && forall k :: 0 <= k < |g.month| ==> IsMonthLetter(g.month[k])
  {
    var t := SkipDe(r).value;
    var month := TakeWhile(t, MonthClass);
    TakeWhileInClass(t, MonthClass);
    assert MatchAfterDay(day, r) == MatchAfterMonth(day, month, t[|month|..]);
  }

  /** A canonical key: the ISO rendering of a valid date. */
  predicate IsCanonical(s: string)
  {
    IsoShape(s) && ValidDate(IsoDate(s)) && Format(IsoDate(s)) == s
  }

  /** The three branches of `to_date`, applied to the stripped, lower-cased
      text. A shape whose `strptime` or `datetime` call raises falls through
      to the next branch, and finally to `None`. */
  function ParseNormalized(v: string): (r: Option<string>)
    ensures r.Some? ==> IsCanonical(r.value)
  {
    if IsoShape(v) && ValidDate(IsoDate(v)) then
      FormatIsCanonical(IsoDate(v));
      Some(Format(IsoDate(v)))
    else ParseDmyOrLong(v)
  }

  /** The `DD/MM/YYYY` branch, then the long form. */
  function ParseDmyOrLong(v: string): (r: Option<string>)
    ensures r.Some? ==> IsCanonical(r.value)
  {
    if DmyShape(v) && ValidDate(DmyDate(v)) then
      FormatIsCanonical(DmyDate(v));
      Some(Format(DmyDate(v)))
    else ParseLong(v)
  }

  /** The long-form branch. */
  function ParseLong(v: string): (r: Option<string>)
    ensures r.Some? ==> IsCanonical(r.value)
  {
    match MatchLong(v)
    case None => None
    case Some(g) =>
      MatchLongShape(v);
      LongKey(g.day, g.month, g.year)
  }

  /** The key of a long-form match: the accent-folded month name is looked
      up in the lexicon and the three numbers must name a calendar day. */
  function LongKey(day: string, month: string, year: string): (r: Option<string>)
    requires AllDigits(day) && AllDigits(year)
    ensures r.Some? ==> IsCanonical(r.value)
  {
    var name := FoldAccents(month);
    if name in Months && ValidDate(Date(DigitsValue(year), Months[name], DigitsValue(day))) then
      FormatIsCanonical(Date(DigitsValue(year), Months[name], DigitsValue(day)));
      Some(Format(Date(DigitsValue(year), Months[name], DigitsValue(day))))
    else None
  }

  /** `to_date(value)`: a non-string or empty value gives `None`; otherwise
      the stripped, lower-cased text is parsed. Every result is canonical. */
  function ToDate(value: Cell): (r: Option<string>)
    ensures !value.Text? ==> r == None
    ensures r.Some? ==> IsCanonical(r.value)
  {
    match value
    case Text(s) => if s == [] then None else ParseNormalized(Lower(Strip(s)))
    case _ => None
  }

  // ----- properties -----

  /** Rendering a valid date and reading it back as ISO gives the date. */
  lemma FormatIsCanonical(d: Date)
    requires ValidDate(d)
    ensures IsoShape(Format(d)) && IsoDate(Format(d)) == d
    ensures IsCanonical(Format(d))
  {
    var s := Format(d);
    assert s[..4] == FixedDigits(d.year, 4);
    assert s[5..7] == FixedDigits(d.month, 2);
    assert s[8..] == FixedDigits(d.day, 2);
    FixedDigitsValue(d.year, 4);
    FixedDigitsValue(d.month, 2);
    FixedDigitsValue(d.day, 2);
  }

  lemma DmyTextShape(d: Date)
    requires ValidDate(d)
    ensures DmyShape(DmyText(d)) && DmyDate(DmyText(d)) == d
  {
    var s := DmyText(d);
    assert s[..2] == FixedDigits(d.day, 2);
    assert s[3..5] == FixedDigits(d.month, 2);
    assert s[6..] == FixedDigits(d.year, 4);
    FixedDigitsValue(d.year, 4);
    FixedDigitsValue(d.month, 2);
    FixedDigitsValue(d.day, 2);
  }

  /** Text that `strip()` and `lower()` leave alone is parsed as it is. */
  lemma NormalText(s: string)
    requires s != [] && Trimmed(s) && LowerFixed(s)
    ensures ToDate(Text(s)) == ParseNormalized(s)
  {
    StripTrimmed(s);
    LowerOfFixed(s);
  }

  /** The numeric shapes are already stripped and lower-case. */
  lemma ShapeNormal(s: string)
    requires IsoShape(s) || DmyShape(s)
    ensures s != [] && Trimmed(s) && LowerFixed(s)
  {
    forall i | 0 <= i < |s|
      ensures IsDigit(s[i]) || s[i] == '-' || s[i] == '/'
    {
      if IsoShape(s) {
        if i < 4 { assert s[i] == s[..4][i]; }
        else if 5 <= i < 7 { assert s[i] == s[5..7][i - 5]; }
        else if 8 <= i { assert s[i] == s[8..][i - 8]; }
      } else {
        if i < 2 { assert s[i] == s[..2][i]; }
        else if 3 <= i < 5 { assert s[i] == s[3..5][i - 3]; }
        else if 6 <= i { assert s[i] == s[6..][i - 6]; }
      }
    }
  }

  /** Nothing in the empty text matches. */
  lemma ParseEmpty()
    ensures ParseNormalized([]) == None
  {
    assert TakeWhile([], DigitClass) == [];
  }

  /** `if not value` and `strip()`: an empty or all-whitespace string gives
      `None`. */
  lemma BlankGivesNone(s: string)
    requires AllSpace(s)
    ensures ToDate(Text(s)) == None
  {
    if s != [] {
      StripPadded(s, [], []);
      assert s + [] + [] == s;
      assert Strip(s) == [] && Lower([]) == [];
      ParseEmpty();
    }
  }

  /** `\s+` cannot start at a character that is not whitespace. */
  lemma SkipDeNone(r: string)
    requires r == [] || !IsSpace(r[0])
    ensures SkipDe(r) == None
  {
    assert TakeWhile(r, SpaceClass) == [];
  }

  /** Three leading digits are more than the day group allows. */
  lemma ThreeDigitsNotLong(v: string)
    requires |v| >= 3 && IsDigit(v[0]) && IsDigit(v[1]) && IsDigit(v[2])
    ensures MatchLong(v) == None
  {
    assert v[1..][0] == v[1] && v[1..][1..][0] == v[2];
    var day := TakeWhile(v, DigitClass);
    assert |day| >= 3;
  }

  /** An ISO-shaped string whose fields name no calendar day gives `None`
      (the `ValueError` from `strptime` is swallowed). */
  lemma IsoInvalid(s: string)
    requires IsoShape(s) && !ValidDate(IsoDate(s))
    ensures ToDate(Text(s)) == None
  {
    ShapeNormal(s);
    assert IsDigit(s[0]) && IsDigit(s[1]) && IsDigit(s[2]) by {
      assert s[0] == s[..4][0] && s[1] == s[..4][1] && s[2] == s[..4][2];
    }
    calc {
      ToDate(Text(s));
      { NormalText(s); }
      ParseNormalized(s);
      ParseDmyOrLong(s);
      ParseLong(s);
      { ThreeDigitsNotLong(s); }
      None;
    }
  }

  /** A `DD/MM/YYYY` string that names no calendar day gives `None`. */
  lemma DmyInvalid(s: string)
    requires DmyShape(s) && !ValidDate(DmyDate(s))
    ensures ToDate(Text(s)) == None
  {
    ShapeNormal(s);
    assert !IsoShape(s) by {
      assert s[..4][2] == s[2];
    }
    assert MatchLong(s) == None by {
      assert s[..2][0] == s[0] && s[..2][1] == s[1];
      TakeWhileExact(s[..2], s[2..], DigitClass);
      assert s[..2] + s[2..] == s;
      SkipDeNone(s[2..]);
    }
    calc {
      ToDate(Text(s));
      { NormalText(s); }
      ParseNormalized(s);
      ParseDmyOrLong(s);
      ParseLong(s);
      None;
    }
  }

  /** A valid date in ISO form normalises to itself. */
  lemma IsoRoundTrip(d: Date)
    requires ValidDate(d)
    ensures ToDate(Text(Format(d))) == Some(Format(d))
  {
    var s := Format(d);
    FormatIsCanonical(d);
    ShapeNormal(s);
    NormalText(s);
  }

  /** A valid date in `DD/MM/YYYY` form normalises to the ISO form of the
      same day. */
  lemma DmyRoundTrip(d: Date)
    requires ValidDate(d)
    ensures ToDate(Text(DmyText(d))) == Some(Format(d))
  {
    var s := DmyText(d);
    DmyTextShape(d);
    ShapeNormal(s);
    assert !IsoShape(s) by {
      assert s[..4][2] == s[2];
    }
    calc {
      ToDate(Text(s));
      { NormalText(s); }
      ParseNormalized(s);
      ParseDmyOrLong(s);
      Some(Format(d));
    }
  }

  /** Every result of `to_date` is a fixed point of `to_date`. */
  lemma Idempotent(value: Cell)
    requires ToDate(value).Some?
    ensures ToDate(Text(ToDate(value).value)) == ToDate(value)
  {
    var r := ToDate(value).value;
    IsoRoundTrip(IsoDate(r));
  }

  /** Whitespace around the text and the letter case of the text are
      ignored. */
  lemma IgnoresPaddingAndCase(pre: string, s: string, post: string)
    requires AllSpace(pre) && AllSpace(post)
    ensures ToDate(Text(pre + s + post)) == ToDate(Text(s))
    ensures ToDate(Text(Lower(s))) == ToDate(Text(s))
  {
    IgnoresPadding(pre, s, post);
    IgnoresCase(s);
  }

  lemma IgnoresPadding(pre: string, s: string, post: string)
    requires AllSpace(pre) && AllSpace(post)
    ensures ToDate(Text(pre + s + post)) == ToDate(Text(s))
  {
    if s == [] {
      assert ToDate(Text(pre + s + post)) == None by {
        StripPadded(pre, s, post);
        assert Strip(s) == [] && Lower([]) == [];
        ParseEmpty();
      }
    } else {
      calc {
        ToDate(Text(pre + s + post));
        ParseNormalized(Lower(Strip(pre + s + post)));
        { StripPadded(pre, s, post); }
        ParseNormalized(Lower(Strip(s)));
      }
    }
  }

  lemma IgnoresCase(s: string)
    ensures ToDate(Text(Lower(s))) == ToDate(Text(s))
  {
    if s != [] {
      calc {
        ToDate(Text(Lower(s)));
        ParseNormalized(Lower(Strip(Lower(s))));
        { StripLower(s); LowerIdempotent(Strip(s)); }
        ParseNormalized(Lower(Strip(s)));
      }
    }
  }

  /** Calendar order: a is strictly earlier than b. */
  predicate Before(a: Date, b: Date)
  {
    a.year < b.year || (a.year == b.year && (a.month < b.month || (a.month == b.month && a.day < b.day)))
  }

  /** Sorting canonical keys as strings sorts the dates chronologically. */
  lemma FormatOrder(a: Date, b: Date)
    requires ValidDate(a) && ValidDate(b)
    ensures LexLess(Format(a), Format(b)) <==> Before(a, b)
  {
    var ya, yb := FixedDigits(a.year, 4), FixedDigits(b.year, 4);
    var ma, mb := FixedDigits(a.month, 2), FixedDigits(b.month, 2);
    var da, db := FixedDigits(a.day, 2), FixedDigits(b.day, 2);
    assert Format(a) == ya + ("-" + ma + "-" + da);
    assert Format(b) == yb + ("-" + mb + "-" + db);
    LexConcat(ya, "-" + ma + "-" + da, yb, "-" + mb + "-" + db);
    assert "-" + ma + "-" + da == "-" + (ma + ("-" + da));
    assert "-" + mb + "-" + db == "-" + (mb + ("-" + db));
    LexConcat("-", ma + ("-" + da), "-", mb + ("-" + db));
    LexIrreflexive("-");
    LexConcat(ma, "-" + da, mb, "-" + db);
    LexConcat("-", da, "-", db);
    FixedDigitsOrder(a.year, b.year, 4);
    FixedDigitsOrder(a.month, b.month, 2);
    FixedDigitsOrder(a.day, b.day, 2);
    FixedDigitsValue(a.year, 4);
    FixedDigitsValue(b.year, 4);
    FixedDigitsValue(a.month, 2);
    FixedDigitsValue(b.month, 2);
    if ya == yb { assert a.year == b.year; }
    if ma == mb { assert a.month == b.month; }
    if a.year == b.year { assert ya == yb; }
    if a.month == b.month { assert ma == mb; }
  }

  /** The long form with its four whitespace runs. */
  function LongText(day: string, s1: string, s2: string, month: string, s3: string, s4: string, year: string): string
  {
    day + (s1 + ("de" + (s2 + (month + (s3 + ("de" + (s4 + year)))))))
  }

  predicate Spaces(s: string)
  {
    s != [] && AllSpace(s)
  }

  predicate MonthWord(s: string)
  {
    s != [] && forall k :: 0 <= k < |s| ==> IsMonthLetter(s[k])
  }

  /** The maximal run is exactly `x` when the next character cannot extend it. */
  lemma {:induction false} TakeWhileExact(x: string, rest: string, cls: CharClass)
    requires forall k :: 0 <= k < |x| ==> InClass(x[k], cls)
    requires rest == [] || !InClass(rest[0], cls)
    ensures TakeWhile(x + rest, cls) == x
    ensures (x + rest)[|x|..] == rest
  {
    if x != [] {
      assert (x + rest)[1..] == x[1..] + rest;
      TakeWhileExact(x[1..], rest, cls);
    }
  }

  /** `\s+de\s+` is consumed exactly, whatever the whitespace runs are. */
  lemma SkipDeExact(s1: string, s2: string, rest: string)
    requires Spaces(s1) && Spaces(s2) && (rest == [] || !IsSpace(rest[0]))
    ensures SkipDe(s1 + ("de" + (s2 + rest))) == Some(rest)
  {
    var t := "de" + (s2 + rest);
    assert t[0] == 'd';
    TakeWhileExact(s1, t, SpaceClass);
    assert t[2..] == s2 + rest;
    TakeWhileExact(s2, rest, SpaceClass);
  }

  /** The scanner finds exactly the three groups of a long-form string. */
  lemma LongMatchGroups(day: string, s1: string, s2: string, month: string, s3: string, s4: string, year: string)
    requires 1 <= |day| <= 2 && AllDigits(day) && |year| == 4 && AllDigits(year)
    requires MonthWord(month) && Spaces(s1) && Spaces(s2) && Spaces(s3) && Spaces(s4)
    ensures MatchLong(LongText(day, s1, s2, month, s3, s4, year)) == Some(LongMatch(day, month, year))
  {
    var r5 := s3 + ("de" + (s4 + year));
    var r4 := month + r5;
    var r1 := s1 + ("de" + (s2 + r4));
    assert LongText(day, s1, s2, month, s3, s4, year) == day + r1;
    calc {
      MatchLong(day + r1);
      { assert r1[0] == s1[0]; DayStep(day, r1); }
      MatchAfterDay(day, r1);
      { assert r5[0] == s3[0]; MonthStep(day, s1, s2, month, r5); }
      MatchAfterMonth(day, month, r5);
      { YearStep(day, month, s3, s4, year); }
      Some(LongMatch(day, month, year));
    }
  }

  /** The day group is the leading digit run. */
  lemma DayStep(day: string, r1: string)
    requires 1 <= |day| <= 2 && AllDigits(day) && r1 != [] && !IsDigit(r1[0])
    ensures MatchLong(day + r1) == MatchAfterDay(day, r1)
  {
    TakeWhileExact(day, r1, DigitClass);
  }

  /** `\s+de\s+` and then the month group, the maximal run of letters. */
  lemma MonthStep(day: string, s1: string, s2: string, month: string, r5: string)
    requires Spaces(s1) && Spaces(s2) && MonthWord(month) && r5 != [] && !IsMonthLetter(r5[0])
    ensures MatchAfterDay(day, s1 + ("de" + (s2 + (month + r5)))) == MatchAfterMonth(day, month, r5)
  {
    assert (month + r5)[0] == month[0];
    SkipDeExact(s1, s2, month + r5);
    TakeWhileExact(month, r5, MonthClass);
  }

  /** `\s+de\s+` and then the year group, which must end the text. */
  lemma YearStep(day: string, month: string, s3: string, s4: string, year: string)
    requires Spaces(s3) && Spaces(s4) && |year| == 4 && AllDigits(year)
    ensures MatchAfterMonth(day, month, s3 + ("de" + (s4 + year))) == Some(LongMatch(day, month, year))
  {
    SkipDeExact(s3, s4, year);
  }

  /** The digits, spaces, `de` and lower-case month letters of a long form
      are already stripped and lower-case. */
  lemma LongNormal(day: string, s1: string, s2: string, month: string, s3: string, s4: string, year: string)
    requires 1 <= |day| <= 2 && AllDigits(day) && |year| == 4 && AllDigits(year)
    requires MonthWord(month) && Spaces(s1) && Spaces(s2) && Spaces(s3) && Spaces(s4)
    ensures var v := LongText(day, s1, s2, month, s3, s4, year);
      v != [] && Trimmed(v) && LowerFixed(v)
  {
    var v := LongText(day, s1, s2, month, s3, s4, year);
    assert LowerFixed("de");
    LowerFixedConcat(s4, year);
    LowerFixedConcat("de", s4 + year);
    LowerFixedConcat(s3, "de" + (s4 + year));
    LowerFixedConcat(month, s3 + ("de" + (s4 + year)));
    LowerFixedConcat(s2, month + (s3 + ("de" + (s4 + year))));
    LowerFixedConcat("de", s2 + (month + (s3 + ("de" + (s4 + year)))));
    LowerFixedConcat(s1, "de" + (s2 + (month + (s3 + ("de" + (s4 + year))))));
    LowerFixedConcat(day, s1 + ("de" + (s2 + (month + (s3 + ("de" + (s4 + year)))))));
    assert v[0] == day[0];
    assert v[|v| - 1] == year[3];
  }

  /** A long form has whitespace within its first three characters, so it
      has neither numeric shape. */
  lemma LongNotNumeric(day: string, s1: string, rest: string)
    requires 1 <= |day| <= 2 && AllDigits(day) && Spaces(s1)
    ensures !IsoShape(day + (s1 + rest)) && !DmyShape(day + (s1 + rest))
  {
    var v := day + (s1 + rest);
    assert v[|day|] == s1[0];
    if |v| == 10 {
      assert v[..4][|day|] == v[|day|];
      assert v[..2][1] == v[1];
    }
  }

  /** The long form resolves exactly when the accent-folded month name is in
      the lexicon and the day exists in that month and year. */
  lemma LongForm(day: string, s1: string, s2: string, month: string, s3: string, s4: string, year: string)
    requires 1 <= |day| <= 2 && AllDigits(day) && |year| == 4 && AllDigits(year)
    requires MonthWord(month) && Spaces(s1) && Spaces(s2) && Spaces(s3) && Spaces(s4)
    ensures var name := FoldAccents(month);
      ToDate(Text(LongText(day, s1, s2, month, s3, s4, year))) ==
        if name in Months && ValidDate(Date(DigitsValue(year), Months[name], DigitsValue(day)))
        then Some(Format(Date(DigitsValue(year), Months[name], DigitsValue(day))))
        else None
  {
    LongFormKey(day, s1, s2, month, s3, s4, year);
  }

  lemma LongFormKey(day: string, s1: string, s2: string, month: string, s3: string, s4: string, year: string)
    requires 1 <= |day| <= 2 && AllDigits(day) && |year| == 4 && AllDigits(year)
    requires MonthWord(month) && Spaces(s1) && Spaces(s2) && Spaces(s3) && Spaces(s4)
    ensures ToDate(Text(LongText(day, s1, s2, month, s3, s4, year))) == LongKey(day, month, year)
  {
    var v := LongText(day, s1, s2, month, s3, s4, year);
    var rest := "de" + (s2 + (month + (s3 + ("de" + (s4 + year)))));
    assert v == day + (s1 + rest);
    calc {
      ToDate(Text(v));
      { LongNormal(day, s1, s2, month, s3, s4, year); NormalText(v); }
      ParseNormalized(v);
      { LongNotNumeric(day, s1, rest); }
      ParseLong(v);
      { LongMatchGroups(day, s1, s2, month, s3, s4, year); }
      LongKey(day, month, year);
    }
  }

  /** The groups and whitespace runs of a long form, shaped as the pattern
      requires. */
  predicate LongParts(day: string, s1: string, s2: string, month: string, s3: string, s4: string, year: string)
  {
    1 <= |day| <= 2 && AllDigits(day) && |year| == 4 && AllDigits(year) &&
    MonthWord(month) && Spaces(s1) && Spaces(s2) && Spaces(s3) && Spaces(s4)
  }

  /** A `\s+` that matched is a whitespace run in front of what is left. */
  lemma SkipSpacesSplit(s: string) returns (sp: string)
    requires SkipSpaces(s).Some?
    ensures Spaces(sp) && s == sp + SkipSpaces(s).value
  {
    sp := TakeWhile(s, SpaceClass);
    TakeWhileInClass(s, SpaceClass);
    assert s == s[..|sp|] + s[|sp|..];
  }

  /** A `\s+de\s+` that matched is `de` between two whitespace runs. */
  lemma SkipDeSplit(s: string) returns (s1: string, s2: string)
    requires SkipDe(s).Some?
    ensures Spaces(s1) && Spaces(s2) && s == s1 + ("de" + (s2 + SkipDe(s).value))
  {
    var t := SkipSpaces(s).value;
    s1 := SkipSpacesSplit(s);
    s2 := SkipSpacesSplit(t[2..]);
    assert t == t[..2] + t[2..];
  }

  /** The scanner only accepts long forms: a match is the `LongText` of its
      three groups and four whitespace runs. */
  lemma MatchLongSound(v: string) returns (s1: string, s2: string, s3: string, s4: string)
    requires MatchLong(v).Some?
    ensures var g := MatchLong(v).value;
      LongParts(g.day, s1, s2, g.month, s3, s4, g.year) &&
      v == LongText(g.day, s1, s2, g.month, s3, s4, g.year)
  {
    var day := TakeWhile(v, DigitClass);
    var r := v[|day|..];
    DigitRun(v);
    assert MatchLong(v) == MatchAfterDay(day, r);
    var g := MatchAfterDay(day, r).value;
    s1, s2, s3, s4 := AfterDaySound(day, r);
    assert LongText(g.day, s1, s2, g.month, s3, s4, g.year) == day + r;
  }

  /** After the day group: `\s+de\s+`, the month group and the rest. */
  lemma AfterDaySound(day: string, r: string) returns (s1: string, s2: string, s3: string, s4: string)
    requires MatchAfterDay(day, r).Some?
    ensures var g := MatchAfterDay(day, r).value;
      g.day == day && MonthWord(g.month) && Spaces(s1) && Spaces(s2) &&
      Spaces(s3) && Spaces(s4) && |g.year| == 4 && AllDigits(g.year) &&
      r == s1 + ("de" + (s2 + (g.month + (s3 + ("de" + (s4 + g.year))))))
  {
    var t := SkipDe(r).value;
    s1, s2 := SkipDeSplit(r);
    var month := TakeWhile(t, MonthClass);
    var r5 := t[|month|..];
    MonthRun(t);
    assert MatchAfterDay(day, r) == MatchAfterMonth(day, month, r5);
    s3, s4 := AfterMonthSound(day, month, r5);
  }

  /** The leading digit run is all digits and a prefix of the text. */
  lemma DigitRun(v: string)
    ensures var d := TakeWhile(v, DigitClass); AllDigits(d) && v == d + v[|d|..]
  {
    var d := TakeWhile(v, DigitClass);
    TakeWhileInClass(v, DigitClass);
    forall k | 0 <= k < |d| ensures IsDigit(d[k]) {
      assert InClass(d[k], DigitClass);
    }
    assert v == v[..|d|] + v[|d|..];
  }

  /** The month group's run is a month word, when it is not empty. */
  lemma MonthRun(t: string)
    ensures var m := TakeWhile(t, MonthClass);
      (m != [] ==> MonthWord(m)) && t == m + t[|m|..]
  {
    var m := TakeWhile(t, MonthClass);
    TakeWhileInClass(t, MonthClass);
    forall k | 0 <= k < |m| ensures IsMonthLetter(m[k]) {
      assert InClass(m[k], MonthClass);
    }
    assert t == t[..|m|] + t[|m|..];
  }

  /** After the month group: `\s+de\s+` and the year, which ends the text. */
  lemma AfterMonthSound(day: string, month: string, r: string) returns (s3: string, s4: string)
    requires MatchAfterMonth(day, month, r).Some?
    ensures var g := MatchAfterMonth(day, month, r).value;
      g.day == day && g.month == month && Spaces(s3) && Spaces(s4) &&
      |g.year| == 4 && AllDigits(g.year) && r == s3 + ("de" + (s4 + g.year))
  {
    s3, s4 := SkipDeSplit(r);
  }

  /** `to_date` returns a date only through one of its three branches: the
      normalised text is a valid ISO date, a valid `DD/MM/YYYY` date, or a
      long form whose folded month name is in the lexicon, and the result is
      what that branch computes. Every other text gives `None`. */
  lemma OnlyThreeForms(s: string)
    requires ToDate(Text(s)).Some?
    ensures var v := Lower(Strip(s)); var r := ToDate(Text(s));
      (IsoShape(v) && ValidDate(IsoDate(v)) && r == Some(Format(IsoDate(v)))) ||
      (DmyShape(v) && ValidDate(DmyDate(v)) && r == Some(Format(DmyDate(v)))) ||
      (exists day, s1, s2, month, s3, s4, year ::
        LongParts(day, s1, s2, month, s3, s4, year) && v == LongText(day, s1, s2, month, s3, s4, year) &&
        FoldAccents(month) in Months && r == LongKey(day, month, year))
  {
    var v := Lower(Strip(s));
    assert ToDate(Text(s)) == ParseNormalized(v);
    if !(IsoShape(v) && ValidDate(IsoDate(v))) && !(DmyShape(v) && ValidDate(DmyDate(v))) {
      assert ParseNormalized(v) == ParseLong(v);
      var g := MatchLong(v).value;
      var s1, s2, s3, s4 := MatchLongSound(v);
      assert ParseLong(v) == LongKey(g.day, g.month, g.year);
      assert LongParts(g.day, s1, s2, g.month, s3, s4, g.year) && v == LongText(g.day, s1, s2, g.month, s3, s4, g.year);
    }
  }

  /** The docstring's three spellings of one date give one key. */
  lemma DocstringExample()
    ensures ToDate(Text("2023-05-20")) == Some("2023-05-20")
    ensures ToDate(Text("20/05/2023")) == Some("2023-05-20")
    ensures ToDate(Text("20 de mayo de 2023")) == Some("2023-05-20")
  {
    ExampleRenderings();
    IsoRoundTrip(Date(2023, 5, 20));
    DmyRoundTrip(Date(2023, 5, 20));
    ExampleLongForm();
  }

  lemma ExampleRenderings()
    ensures Format(Date(2023, 5, 20)) == "2023-05-20"
    ensures DmyText(Date(2023, 5, 20)) == "20/05/2023"
  {
  }

  lemma ExampleLongForm()
    ensures ToDate(Text("20 de mayo de 2023")) == Some("2023-05-20")
  {
    assert LongText("20", " ", " ", "mayo", " ", " ", "2023") == "20 de mayo de 2023" by {
      ExampleLongText();
    }
    PlainWord("mayo");
    LongFormKey("20", " ", " ", "mayo", " ", " ", "2023");
    ExampleKey();
  }

  lemma ExampleKey()
    ensures LongKey("20", "mayo", "2023") == Some("2023-05-20")
  {
    PlainWord("mayo");
    DigitsExamples();
    ExampleRenderings();
  }

  lemma ExampleLongText()
    ensures LongText("20", " ", " ", "mayo", " ", " ", "2023") == "20 de mayo de 2023"
  {
  }

  /** The lexicon's name of month `m` is an unaccented lower-case word that
      maps back to `m`. */
  predicate LexiconEntry(m: nat)
    requires 1 <= m <= 12
  {
    MonthWord(MonthName(m)) && FoldAccents(MonthName(m)) == MonthName(m) &&
    MonthName(m) in Months && Months[MonthName(m)] == m
  }

  lemma MonthNameInLexicon(m: nat)
    requires 1 <= m <= 12
    ensures LexiconEntry(m)
  {
    MonthNameLookup(m);
    MonthNamePlain(m);
  }

  lemma MonthNameLookup(m: nat)
    requires 1 <= m <= 12
    ensures MonthName(m) in Months && Months[MonthName(m)] == m
  {
  }

  lemma MonthNamePlain(m: nat)
    requires 1 <= m <= 12
    ensures MonthWord(MonthName(m)) && FoldAccents(MonthName(m)) == MonthName(m)
  {
    PlainWord(MonthName(m));
  }

  /** A word of unaccented lower-case letters is a month word that folding
      leaves unchanged. */
  lemma PlainWord(name: string)
    requires name != [] && forall k :: 0 <= k < |name| ==> 'a' <= name[k] <= 'z'
    ensures MonthWord(name) && FoldAccents(name) == name
  {
    var r := FoldAccents(name);
    forall k | 0 <= k < |name|
      ensures IsMonthLetter(name[k]) && r[k] == name[k]
    {
      PlainLetter(name[k]);
    }
  }

  lemma PlainLetter(c: char)
    requires 'a' <= c <= 'z'
    ensures IsMonthLetter(c) && FoldChar(c) == c
  {
  }

  /** For every valid date, the ISO form, the `DD/MM/YYYY` form and the long
      form with the lexicon's month name all give the same key. */
  lemma ThreeFormsAgree(d: Date)
    requires ValidDate(d)
    ensures ToDate(Text(Format(d))) == Some(Format(d))
    ensures ToDate(Text(DmyText(d))) == Some(Format(d))
    ensures ToDate(Text(LongText(NatToString(d.day), " ", " ", MonthName(d.month), " ", " ", FixedDigits(d.year, 4)))) == Some(Format(d))
  {
    IsoRoundTrip(d);
    DmyRoundTrip(d);
    LongFormOfDate(d);
  }

  lemma LongFormOfDate(d: Date)
    requires ValidDate(d)
    ensures ToDate(Text(LongText(NatToString(d.day), " ", " ", MonthName(d.month), " ", " ", FixedDigits(d.year, 4)))) == Some(Format(d))
  {
    MonthNameInLexicon(d.month);
    FixedDigitsValue(d.year, 4);
    NatToStringValue(d.day);
    assert |NatToString(d.day)| <= 2;
    LongForm(NatToString(d.day), " ", " ", MonthName(d.month), " ", " ", FixedDigits(d.year, 4));
  }

  /** Impossible calendar values give `None` rather than an error. */
  lemma InvalidExamples()
    ensures ToDate(Text("2023-13-40")) == None
    ensures ToDate(Text("2023-02-30")) == None
    ensures ToDate(Text("29/02/2023")) == None
    ensures ToDate(Text("29/02/2024")) == Some("2024-02-29")
  {
    ExampleBadMonth();
    ExampleBadDay();
    ExampleNotLeap();
    ExampleLeap();
  }

  lemma ExampleBadMonth()
    ensures ToDate(Text("2023-13-40")) == None
  {
    DigitsExamples();
    IsoInvalid("2023-13-40");
  }

  lemma ExampleBadDay()
    ensures ToDate(Text("2023-02-30")) == None
  {
    DigitsExamples();
    var s := "2023-02-30";
    assert s[..4] == "2023" && s[5..7] == "02" && s[8..] == "30";
    IsoInvalid(s);
  }

  lemma ExampleNotLeap()
    ensures ToDate(Text("29/02/2023")) == None
  {
    DigitsExamples();
    var s := "29/02/2023";
    assert s[..2] == "29" && s[3..5] == "02" && s[6..] == "2023";
    DmyInvalid(s);
  }

  lemma ExampleLeap()
    ensures ToDate(Text("29/02/2024")) == Some("2024-02-29")
  {
    LeapRenderings();
    DmyRoundTrip(Date(2024, 2, 29));
  }

  lemma LeapRenderings()
    ensures DmyText(Date(2024, 2, 29)) == "29/02/2024" && Format(Date(2024, 2, 29)) == "2024-02-29"
  {
  }

  lemma DigitsExamples()
    ensures DigitsValue("2023") == 2023 && DigitsValue("2024") == 2024
    ensures DigitsValue("20") == 20 && DigitsValue("13") == 13 && DigitsValue("02") == 2
    ensures DigitsValue("30") == 30 && DigitsValue("29") == 29
  {
    assert DigitsValue("2") == 2;
    assert "20"[..1] == "2" && "202"[..2] == "20" && "2023"[..3] == "202" && "2024"[..3] == "202";
    assert DigitsValue("20") == 20;
    assert DigitsValue("202") == 202;
    assert "13"[..1] == "1" && "02"[..1] == "0" && "30"[..1] == "3" && "29"[..1] == "2";
  }
}
