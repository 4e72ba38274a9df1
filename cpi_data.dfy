/**
 * The `CPIData` object of api.py: a per-year table of consumer price
 * index averages, loaded from the lines of the FRED CPIAUCSL text file,
 * and the price adjustment that converts an amount from one year's
 * purchasing power to another's.
 */
module CpiData {
  import opened Wrappers
  import opened Text
  import opened Series

  /** The marker at the start of the line that precedes the data lines. */
  const HeaderMarker: string := "DATE "

  /** The latest year the adjuster converts to (api.py hard-codes it). */
  const CeilingYear: int := 2013

  datatype LoadError =
    | MissingHeader             // no line starts with the header marker
    | MissingField(index: nat)  // `data[index]` raised IndexError
    | BadYear(token: string)    // `int(token)` raised ValueError
    | BadValue(token: string)   // `float(token)` raised ValueError

  datatype AdjustError =
    | NotLoaded                 // a bound is still None, so comparing with it fails
    | MissingYear(year: int)    // `year_cpi[year]` raised KeyError
    | ZeroCpi(year: int)        // dividing by a zero CPI raised ZeroDivisionError

  predicate IsHeader(line: string) {
    StartsWith(line, HeaderMarker)
  }

  /**
   * One data line: the year is the integer before the first '-' of the
   * first field, the value the second field; the errors are checked in
   * the order Python evaluates `data[0]`, `int(...)`, `data[1]`, `float(...)`.
   */
  function ParseLine(line: string): (r: Result<Observation, LoadError>)
    ensures Split(line) == [] ==> r == Failure(MissingField(0))
    ensures r.Success? ==>
      && |Split(line)| >= 2
      && ParseInt(BeforeDash(Split(line)[0])) == Some(r.value.year)
      && ParseDecimal(Split(line)[1]) == Some(r.value.value)
  {
    var data := Split(line);
    if |data| < 1 then Failure(MissingField(0))
    else
      var yearToken := BeforeDash(data[0]);
      match ParseInt(yearToken)
      case None => Failure(BadYear(yearToken))
      case Some(year) =>
        if |data| < 2 then Failure(MissingField(1))
        else
          match ParseDecimal(data[1])
          case None => Failure(BadValue(data[1]))
          case Some(value) => Success(Observation(year, value))
  }

  /** The observations of the lines before the first malformed one, and that line's error if any. */
  datatype Parsed = Parsed(obs: seq<Observation>, failure: Option<LoadError>)

  /** Parses lines in order with `parse`, stopping at the first line it rejects. */
  function ParseEach(parse: string -> Result<Observation, LoadError>, ls: seq<string>): (p: Parsed)
    ensures |p.obs| <= |ls|
    ensures p.failure.None? ==> |p.obs| == |ls|
  {
    if ls == [] then Parsed([], None)
    else
      var p := ParseEach(parse, AllButLast(ls));
      if p.failure.Some? then p
      else
        match parse(Last(ls))
        case Failure(e) => Parsed(p.obs, Some(e))
        case Success(o) => Parsed(p.obs + [o], None)
  }

  /** The data lines of a load, parsed in order up to the first malformed one. */
  function ParseLines(ls: seq<string>): Parsed {
    ParseEach(ParseLine, ls)
  }

  /**
   * The parsed observations are the results of the lines before the first
   * rejected one, and the failure, if any, is that line's error.
   */
  lemma {:induction false} ParseEachSpec(parse: string -> Result<Observation, LoadError>, ls: seq<string>)
    ensures forall i :: 0 <= i < |ParseEach(parse, ls).obs| ==> parse(ls[i]) == Success(ParseEach(parse, ls).obs[i])
    ensures ParseEach(parse, ls).failure.Some? ==>
      |ParseEach(parse, ls).obs| < |ls| && parse(ls[|ParseEach(parse, ls).obs|]) == Failure(ParseEach(parse, ls).failure.value)
  {
    if ls != [] {
      var init := AllButLast(ls);
      ParseEachSpec(parse, init);
      assert forall i :: 0 <= i < |init| ==> init[i] == ls[i];
    }
  }

  /** The index of the first header line, if any. */
  function HeaderIndex(lines: seq<string>): (h: Option<nat>)
    ensures h.Some? ==> h.value < |lines| && IsHeader(lines[h.value])
    ensures h.Some? ==> forall i :: 0 <= i < h.value ==> !IsHeader(lines[i])
    ensures h.None? ==> forall i :: 0 <= i < |lines| ==> !IsHeader(lines[i])
  {
    if lines == [] then None
    else if IsHeader(lines[0]) then Some(0)
    else
      match HeaderIndex(lines[1..])
      case None => None
      case Some(k) => Some(k + 1)
  }

  /** The forward scan for the header line: the first line that starts with the marker, if any. */
  method FindHeader(lines: seq<string>) returns (h: Option<nat>)
    ensures h == HeaderIndex(lines)
  {
    var i := 0;
    while i < |lines| && !IsHeader(lines[i])
      invariant i <= |lines|
      invariant forall k :: 0 <= k < i ==> !IsHeader(lines[k])
    {
      i := i + 1;
    }
    if i == |lines| {
      return None;
    }
    return Some(i);
  }

  /** The effective reference year: an absent year, or one past the ceiling, becomes the ceiling. */
  function ReferenceYear(currentYear: Option<int>): (r: int)
    ensures r <= CeilingYear
    ensures currentYear.Some? && currentYear.value <= CeilingYear ==> r == currentYear.value
    ensures currentYear.None? || currentYear.value > CeilingYear ==> r == CeilingYear
  {
    if currentYear.None? || currentYear.value > CeilingYear then CeilingYear else currentYear.value
  }

  class CPIData {
    var yearCpi: map<int, real>
    var firstYear: Option<int>
    var lastYear: Option<int>

    constructor ()
      ensures yearCpi == map[] && firstYear == None && lastYear == None
    {
      yearCpi := map[];
      firstYear := None;
      lastYear := None;
    }

    /**
     * Loads the CPI series from the lines of the text file: skips lines up
     * to the header line, then reads the data lines after it. A missing
     * header is an error that changes nothing.
     */
    method LoadFromFile(lines: seq<string>) returns (r: Outcome<LoadError>)
      modifies this
      ensures HeaderIndex(lines).None? ==>
        r == Fail(MissingHeader) && yearCpi == old(yearCpi)
        && firstYear == old(firstYear) && lastYear == old(lastYear)
      ensures HeaderIndex(lines).Some? ==>
        var p := ParseLines(lines[HeaderIndex(lines).value + 1..]);
        && firstYear == NextFirstYear(old(firstYear), p.obs)
        && lastYear == NextLastYear(old(lastYear), p.obs)
        && (p.failure.None? ==> r == Pass && yearCpi == Flushed(old(yearCpi), p.obs))
        && (p.failure.Some? ==> r == Fail(p.failure.value) && yearCpi == ClosedOut(old(yearCpi), p.obs))
    {
      var found := FindHeader(lines);
      if found.None? {
        return Fail(MissingHeader);
      }
      r := LoadData(lines[found.value + 1..]);
    }

    /**
     * The data loop of the load: reads one observation per line, closing
     * out a year's mean whenever the year changes and flushing the last
     * year at the end unless it is a key already. A malformed line stops
     * the load with the close-outs made so far kept and no final flush.
     */
    method LoadData(data: seq<string>) returns (r: Outcome<LoadError>)
      modifies this
      ensures var p := ParseLines(data);
        && firstYear == NextFirstYear(old(firstYear), p.obs)
        && lastYear == NextLastYear(old(lastYear), p.obs)
        && (p.failure.None? ==> r == Pass && yearCpi == Flushed(old(yearCpi), p.obs))
        && (p.failure.Some? ==> r == Fail(p.failure.value) && yearCpi == ClosedOut(old(yearCpi), p.obs))
    {
      ghost var init, first0, last0 := yearCpi, firstYear, lastYear;
      var currentYear: Option<int> := None;
      var acc: seq<real> := [];
      ghost var obs: seq<Observation> := [];
      var i := 0;
      while i < |data|
        invariant i <= |data|
        invariant ParseEach(ParseLine, data[..i]) == Parsed(obs, None)
        invariant yearCpi == ClosedOut(init, obs)
        invariant firstYear == NextFirstYear(first0, obs)
        invariant lastYear == NextLastYear(last0, obs)
        invariant obs == [] ==> currentYear.None?
        invariant obs != [] ==> currentYear == Some(Last(Runs(obs)).year) && acc == Last(Runs(obs)).values
      {
        var parsed := ParseLine(data[i]);
        if parsed.Failure? {
          ParsingStopsAt(ParseLine, data, i);
          return Fail(parsed.error);
        }
        var o := parsed.value;
        ParsingContinues(ParseLine, data, i);
        ClosedOutStep(init, obs, o);
        BoundsStep(first0, obs, o);
        BoundsStep(last0, obs, o);
        if firstYear.None? {
          firstYear := Some(o.year);
        }
        lastYear := Some(o.year);
        if currentYear != Some(o.year) {
          if currentYear.Some? {
            yearCpi := yearCpi[currentYear.value := Mean(acc)];
          }
          acc := [];
          currentYear := Some(o.year);
        }
        acc := acc + [o.value];
        obs := obs + [o];
        i := i + 1;
      }
      assert data[..i] == data;
      if currentYear.Some? && currentYear.value !in yearCpi {
        yearCpi := yearCpi[currentYear.value := Mean(acc)];
      }
      return Pass;
    }

    /** The year looked up for `year`: clamped into [first_year, last_year], compared in that order. */
    function ClampedYear(year: int): (r: Option<int>)
      reads this
      ensures r.Some? ==> firstYear.Some?
      ensures r.Some? ==> r == firstYear || r == lastYear || r == Some(year)
      ensures firstYear.Some? && lastYear.Some? && firstYear.value <= lastYear.value ==>
        r.Some? && firstYear.value <= r.value <= lastYear.value
    {
      if firstYear.None? then None
      else if year < firstYear.value then firstYear
      else if lastYear.None? then None
      else if year > lastYear.value then lastYear
      else Some(year)
    }

    /**
     * `price` in the purchasing power of `year`, converted to that of the
     * reference year: price / cpi[year] * cpi[reference year], after
     * clamping both years. Reads the table and the bounds, changes nothing.
     */
    function GetAdjustedPrice(price: real, year: int, currentYear: Option<int>): (r: Result<real, AdjustError>)
      reads this
      ensures r.Success? <==>
        && ClampedYear(year).Some?
        && ClampedYear(year).value in yearCpi
        && ReferenceYear(currentYear) in yearCpi
        && yearCpi[ClampedYear(year).value] != 0.0
      ensures r.Success? ==>
        r.value * yearCpi[ClampedYear(year).value] == price * yearCpi[ReferenceYear(currentYear)]
    {
      LookUpAndScale(price, ClampedYear(year), ReferenceYear(currentYear))
    }

    /** The two lookups and the division of the adjuster, in the order api.py performs them. */
    function LookUpAndScale(price: real, year: Option<int>, reference: int): (r: Result<real, AdjustError>)
      reads this
      ensures year.None? ==> r == Failure(NotLoaded)
      ensures year.Some? && year.value !in yearCpi ==> r == Failure(MissingYear(year.value))
      ensures r.Success? ==> year.Some? && year.value in yearCpi && reference in yearCpi
      ensures r.Success? ==> r.value * yearCpi[year.value] == price * yearCpi[reference]
    {
      match year
      case None => Failure(NotLoaded)
      case Some(y) =>
        if y !in yearCpi then Failure(MissingYear(y))
        else if reference !in yearCpi then Failure(MissingYear(reference))
        else if yearCpi[y] == 0.0 then Failure(ZeroCpi(y))
        else Success(price / yearCpi[y] * yearCpi[reference])
    }

    /** The adjuster as written: its whole body runs only when the module is the main program. */
    function GetAdjustedPriceAsWritten(moduleName: string, price: real, year: int, currentYear: Option<int>)
      : (r: Option<Result<real, AdjustError>>)
      reads this
      ensures r.None? <==> moduleName != "__main__"
    {
      if moduleName == "__main__" then Some(GetAdjustedPrice(price, year, currentYear)) else None
    }
  }

  /** How reading one more observation changes the runs and the closed-out table. */
  lemma ClosedOutStep(init: map<int, real>, obs: seq<Observation>, o: Observation)
    ensures obs == [] ==>
      ClosedOut(init, obs + [o]) == init && Last(Runs(obs + [o])) == Run(o.year, [o.value])
    ensures obs != [] && Last(Runs(obs)).year == o.year ==>
      && ClosedOut(init, obs + [o]) == ClosedOut(init, obs)
      && Last(Runs(obs + [o])) == Run(o.year, Last(Runs(obs)).values + [o.value])
    ensures obs != [] && Last(Runs(obs)).year != o.year ==>
      && ClosedOut(init, obs + [o]) == ClosedOut(init, obs)[Last(Runs(obs)).year := Mean(Last(Runs(obs)).values)]
      && Last(Runs(obs + [o])) == Run(o.year, [o.value])
  {
    RunsSnoc(obs, o);
    var rs := Runs(obs);
    if rs != [] {
      if Last(rs).year == o.year {
        assert AllButLast(AllButLast(rs) + [Run(o.year, Last(rs).values + [o.value])]) == AllButLast(rs);
      } else {
        var rs' := rs + [Run(o.year, [o.value])];
        assert AllButLast(rs') == rs;
        assert rs == AllButLast(rs) + [Last(rs)];
      }
    }
  }

  /** Once a line fails to parse, the parse of the whole stream stops there with that line's error. */
  lemma ParsingStopsAt(parse: string -> Result<Observation, LoadError>, ls: seq<string>, i: nat)
    requires i < |ls|
    requires ParseEach(parse, ls[..i]).failure.None?
    requires parse(ls[i]).Failure?
    ensures ParseEach(parse, ls) == Parsed(ParseEach(parse, ls[..i]).obs, Some(parse(ls[i]).error))
  {
    var p, q := ParseEach(parse, ls), ParseEach(parse, ls[..i]);
    ParseEachSpec(parse, ls);
    ParseEachSpec(parse, ls[..i]);
    assert forall j :: 0 <= j < i ==> parse(ls[j]) == Success(q.obs[j]);
    assert |p.obs| == i;
    assert p.obs == q.obs;
  }

  /**
   * A stream whose header is its last line has no data lines: the load
   * succeeds and leaves the table and both bounds as they were (empty and
   * None on a fresh object).
   */
  lemma NoDataLines(lines: seq<string>, init: map<int, real>, first: Option<int>, last: Option<int>)
    requires lines != [] && HeaderIndex(lines) == Some(|lines| - 1)
    ensures ParseLines(lines[HeaderIndex(lines).value + 1..]) == Parsed([], None)
    ensures Flushed(init, []) == init
    ensures NextFirstYear(first, []) == first && NextLastYear(last, []) == last
  {
    var data := lines[HeaderIndex(lines).value + 1..];
    assert |data| == 0;
    assert ParseLines(data) == ParseEach(ParseLine, []);
  }

  /** A well-formed line after a well-formed prefix extends the parsed observations by one. */
  lemma ParsingContinues(parse: string -> Result<Observation, LoadError>, ls: seq<string>, i: nat)
    requires i < |ls|
    requires ParseEach(parse, ls[..i]).failure.None?
    requires parse(ls[i]).Success?
    ensures ParseEach(parse, ls[..i + 1]) == Parsed(ParseEach(parse, ls[..i]).obs + [parse(ls[i]).value], None)
  {
    assert AllButLast(ls[..i + 1]) == ls[..i];
    assert Last(ls[..i + 1]) == ls[i];
  }

  // ---------------------------------------------------------------------
  // Line parsing

  /** A line whose first two fields parse as a year and a value is that observation. */
  lemma ParseLineOfFields(line: string, year: int, value: real)
    requires |Split(line)| >= 2
    requires ParseInt(BeforeDash(Split(line)[0])) == Some(year)
    requires ParseDecimal(Split(line)[1]) == Some(value)
    ensures ParseLine(line) == Success(Observation(year, value))
  {
  }

  /** The date and value tokens of a data line are non-empty and free of whitespace. */
  lemma DataTokensWellFormed(year: nat, dateRest: string, whole: string, frac: string)
    requires NoSpace(dateRest)
    requires AllDigits(whole) && AllDigits(frac)
    ensures NatToString(year) + "-" + dateRest != [] && NoSpace(NatToString(year) + "-" + dateRest)
    ensures whole + "." + frac != [] && NoSpace(whole + "." + frac)
  {
    var y := NatToString(year);
    NatToStringDigits(year);
    DigitsHaveNoSpace(y);
    DigitsHaveNoSpace(whole);
    DigitsHaveNoSpace(frac);
    NoSpaceJoin(y, "-", dateRest);
    NoSpaceJoin(whole, ".", frac);
  }

  /**
   * The fields of a data line are read back by `split()`: the date, then a
   * run of whitespace of any length, then the value and any further fields.
   */
  lemma DataLineFields(date: string, sep: string, value: string, more: seq<string>, tail: string)
    requires date != [] && NoSpace(date) && value != [] && NoSpace(value)
    requires sep != [] && AllSpace(sep)
    requires forall i :: 0 <= i < |more| ==> more[i] != [] && NoSpace(more[i])
    requires AllSpace(tail)
    ensures Split(date + sep + JoinFields([value] + more) + tail) == [date, value] + more
  {
    var fields := [value] + more;
    forall i | 0 <= i < |fields|
      ensures fields[i] != [] && NoSpace(fields[i])
    {
      if i > 0 {
        assert fields[i] == more[i - 1];
      }
    }
    SplitAfterRun(date, sep, JoinFields(fields), tail);
    SplitJoin(fields, tail);
    ConsTwo(date, value, more);
  }

  /** Regrouping two leading fields; stated on its own to keep the proof above small. */
  lemma ConsTwo<T>(a: T, b: T, more: seq<T>)
    ensures [a] + ([b] + more) == [a, b] + more
  {
  }

  /** The year of a date token `<year>-<rest>` is read back from the text before the first '-'. */
  lemma DateTokenYear(year: nat, dateRest: string)
    ensures ParseInt(BeforeDash(NatToString(year) + "-" + dateRest)) == Some(year)
  {
    NatToStringDigits(year);
    DigitsHaveNoSpace(NatToString(year));
    BeforeDashOf(NatToString(year), dateRest);
    ParseIntNatToString(year);
  }

  /**
   * A well-formed data line `<year>-<rest of date>`, a run of whitespace,
   * `<whole>.<frac>` and any further fields reads back its year and value.
   */
  lemma DataLineRoundTrip(year: nat, dateRest: string, sep: string, whole: string, frac: string, more: seq<string>, tail: string)
    requires NoSpace(dateRest)
    requires sep != [] && AllSpace(sep)
    requires whole != [] && AllDigits(whole) && AllDigits(frac)
    requires forall i :: 0 <= i < |more| ==> more[i] != [] && NoSpace(more[i])
    requires AllSpace(tail)
    ensures ParseLine(NatToString(year) + "-" + dateRest + sep + JoinFields([whole + "." + frac] + more) + tail)
         == Success(Observation(year, DecimalValue(whole, frac)))
  {
    var line := NatToString(year) + "-" + dateRest + sep + JoinFields([whole + "." + frac] + more) + tail;
    DataTokensWellFormed(year, dateRest, whole, frac);
    DataLineFields(NatToString(year) + "-" + dateRest, sep, whole + "." + frac, more, tail);
    DateTokenYear(year, dateRest);
    ParseDecimalPointed(whole, frac);
    ParseLineOfFields(line, year, DecimalValue(whole, frac));
  }

  /**
   * Malformed lines are errors, not skipped: a blank line lacks field 0, a
   * date token whose year is not an integer is reported, a date with no
   * value lacks field 1, and a value `float()` rejects is reported.
   */
  lemma MalformedLines(date: string, bad: string, tail: string)
    requires date != [] && NoSpace(date) && AllSpace(tail)
    requires bad != [] && NoSpace(bad) && ParseDecimal(bad).None?
    ensures ParseLine(tail) == Failure(MissingField(0))
    ensures ParseInt(BeforeDash(date)).None? ==>
      ParseLine(date + tail) == Failure(BadYear(BeforeDash(date)))
      && ParseLine(date + " " + bad + tail) == Failure(BadYear(BeforeDash(date)))
    ensures ParseInt(BeforeDash(date)).Some? ==>
      ParseLine(date + tail) == Failure(MissingField(1))
      && ParseLine(date + " " + bad + tail) == Failure(BadValue(bad))
  {
    SplitOfSpaces(tail);
    SplitJoin([date], tail);
    assert JoinFields([date]) + tail == date + tail;
    SplitJoin([date, bad], tail);
    assert JoinFields([date, bad]) + tail == date + " " + bad + tail;
  }

  /** The first field of a header line is "DATE". */
  lemma HeaderFirstField(line: string)
    requires IsHeader(line)
    ensures |Split(line)| >= 1 && Split(line)[0] == "DATE"
  {
    var rest := line[4..];
    assert line == "DATE" + rest;
    assert rest[0] == ' ';
    SplitFirstField("DATE", rest);
  }

  /** "DATE" is not an integer. */
  lemma DateIsNotYear()
    ensures BeforeDash("DATE") == "DATE" && ParseInt("DATE") == None
  {
    assert !IsDigit('D');
  }

  /** The header line itself is not a data line: its first field "DATE" is not an integer. */
  lemma HeaderLineIsNotData(line: string)
    requires IsHeader(line)
    ensures ParseLine(line) == Failure(BadYear("DATE"))
  {
    HeaderFirstField(line);
    DateIsNotYear();
  }

  // ---------------------------------------------------------------------
  // Price adjustment

  /** An absent reference year and every reference year past the ceiling behave like the ceiling year. */
  lemma ReferenceYearCeiling(d: CPIData, price: real, year: int, c: int)
    requires c > CeilingYear
    ensures d.GetAdjustedPrice(price, year, Some(c)) == d.GetAdjustedPrice(price, year, None)
    ensures d.GetAdjustedPrice(price, year, None) == d.GetAdjustedPrice(price, year, Some(CeilingYear))
  {
  }

  /**
   * A reference year at or below the ceiling is used as given, even below
   * `first_year`: when the clamped year is a key and the reference year is
   * not, the adjustment fails on the reference year's lookup.
   */
  lemma ReferenceYearNotClamped(d: CPIData, price: real, year: int, c: int)
    requires c <= CeilingYear
    requires d.ClampedYear(year).Some? && d.ClampedYear(year).value in d.yearCpi
    ensures ReferenceYear(Some(c)) == c
    ensures c !in d.yearCpi ==> d.GetAdjustedPrice(price, year, Some(c)) == Failure(MissingYear(c))
  {
  }

  /** With ordered bounds, a year before `first_year` behaves exactly like `first_year`. */
  lemma YearBelowRange(d: CPIData, price: real, year: int, currentYear: Option<int>)
    requires d.firstYear.Some? && d.lastYear.Some? && d.firstYear.value <= d.lastYear.value
    requires year < d.firstYear.value
    ensures d.GetAdjustedPrice(price, year, currentYear) == d.GetAdjustedPrice(price, d.firstYear.value, currentYear)
  {
    assert d.ClampedYear(year) == d.ClampedYear(d.firstYear.value);
  }

  /** With ordered bounds, a year after `last_year` behaves exactly like `last_year`. */
  lemma YearAboveRange(d: CPIData, price: real, year: int, currentYear: Option<int>)
    requires d.firstYear.Some? && d.lastYear.Some? && d.firstYear.value <= d.lastYear.value
    requires year > d.lastYear.value
    ensures d.GetAdjustedPrice(price, year, currentYear) == d.GetAdjustedPrice(price, d.lastYear.value, currentYear)
  {
    assert d.ClampedYear(year) == d.ClampedYear(d.lastYear.value);
  }

  /** A year within the bounds is looked up as given. */
  lemma YearInRange(d: CPIData, year: int)
    requires d.firstYear.Some? && d.lastYear.Some?
    requires d.firstYear.value <= year <= d.lastYear.value
    ensures d.ClampedYear(year) == Some(year)
  {
  }

  /**
   * Bounds follow stream order, so unsorted input can leave `last_year`
   * below `first_year`; then no year is looked up as given: years before
   * `first_year` use `first_year` and all others use `last_year`.
   */
  lemma InvertedBoundsSwapYears(d: CPIData, year: int)
    requires d.firstYear.Some? && d.lastYear.Some? && d.lastYear.value < d.firstYear.value
    ensures d.ClampedYear(year) == (if year < d.firstYear.value then d.firstYear else d.lastYear)
    ensures d.ClampedYear(year) != Some(year)
  {
  }

  /** Adjusting from a year to that same reference year gives back the price. */
  lemma AdjustToSameYear(d: CPIData, price: real, year: int, currentYear: Option<int>)
    requires d.ClampedYear(year) == Some(ReferenceYear(currentYear))
    requires ReferenceYear(currentYear) in d.yearCpi && d.yearCpi[ReferenceYear(currentYear)] != 0.0
    ensures d.GetAdjustedPrice(price, year, currentYear) == Success(price)
  {
    var r := d.GetAdjustedPrice(price, year, currentYear);
    var cpi := d.yearCpi[ReferenceYear(currentYear)];
    assert r.value * cpi == price * cpi;
  }

  /** An object whose bounds were never set cannot adjust. */
  lemma UnloadedCannotAdjust(d: CPIData, price: real, year: int, currentYear: Option<int>)
    requires d.firstYear.None?
    ensures d.GetAdjustedPrice(price, year, currentYear) == Failure(NotLoaded)
  {
  }

  /**
   * After a complete load of at least one observation into a fresh object,
   * the clamped year is a key exactly when the year lies outside the
   * bounds or was observed: a year
   * inside the bounds with no observation (a gap) fails to look up.
   */
  lemma ClampedYearIsKey(d: CPIData, obs: seq<Observation>, year: int)
    requires obs != []
    requires d.yearCpi == AverageOfRuns(obs)
    requires d.firstYear == NextFirstYear(None, obs) && d.lastYear == NextLastYear(None, obs)
    ensures d.ClampedYear(year).Some?
    ensures d.ClampedYear(year).value in d.yearCpi
        <==> year < d.firstYear.value || year > d.lastYear.value || year in Years(obs)
  {
    BoundsAreKeys(obs);
    AverageKeys(obs);
  }

  /** A worked example: 100 at 2010 prices is about 101.31 at 2011 prices. */
  lemma AdjustExample(d: CPIData)
    requires d.yearCpi == map[2010 := 217.3715, 2011 := 220.223]
    requires d.firstYear == Some(2010) && d.lastYear == Some(2011)
    ensures d.GetAdjustedPrice(100.0, 2010, Some(2011)).Success?
    ensures 101.31 < d.GetAdjustedPrice(100.0, 2010, Some(2011)).value < 101.32
  {
    var r := d.GetAdjustedPrice(100.0, 2010, Some(2011));
    assert r.value * 217.3715 == 100.0 * 220.223;
  }

  // ---------------------------------------------------------------------
  // The header wait and the `__name__` gate of api.py, as written

  /**
   * The header wait as written: `while not line.startswith("DATE "): pass`
   * re-tests the same line. True when the loop has exited within
   * `iterations` iterations.
   */
  function HeaderWaitAsWritten(line: string, iterations: nat): (exited: bool)
    ensures IsHeader(line) ==> exited
  {
    if IsHeader(line) then true
    else if iterations == 0 then false
    else HeaderWaitAsWritten(line, iterations - 1)
  }

  /** On any line that is not the header, the wait as written never exits, however long it runs. */
  lemma {:induction false} HeaderWaitNeverExits(line: string, iterations: nat)
    requires !IsHeader(line)
    ensures !HeaderWaitAsWritten(line, iterations)
  {
    if iterations > 0 {
      HeaderWaitNeverExits(line, iterations - 1);
    }
  }

  /** The adjuster as written returns nothing whenever api.py is imported rather than run. */
  lemma AdjusterAsWrittenWhenImported(d: CPIData, moduleName: string, price: real, year: int, currentYear: Option<int>)
    ensures moduleName != "__main__" ==> d.GetAdjustedPriceAsWritten(moduleName, price, year, currentYear) == None
    ensures d.GetAdjustedPriceAsWritten("api", price, year, currentYear) == None
    ensures d.GetAdjustedPriceAsWritten("__main__", price, year, currentYear) == Some(d.GetAdjustedPrice(price, year, currentYear))
  {
  }
}
