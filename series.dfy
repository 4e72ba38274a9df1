/**
 * The year aggregation of the CPI loader, stated on already parsed
 * observations. A stream of (year, value) observations is cut into runs:
 * maximal blocks of consecutive observations with the same year. Every run
 * but the last is closed out when the next one starts, storing its mean
 * under its year (overwriting whatever was there); the last run is flushed
 * at the end of the stream, but only when its year is not a key yet.
 */
module Series {
  import opened Wrappers

  datatype Observation = Observation(year: int, value: real)

  /** A maximal block of consecutive observations that share one year. */
  datatype Run = Run(year: int, values: seq<real>)

  function Last<T>(s: seq<T>): T
    requires |s| > 0
  {
    s[|s| - 1]
  }

  function AllButLast<T>(s: seq<T>): seq<T>
    requires |s| > 0
  {
    s[..|s| - 1]
  }

  function Sum(vs: seq<real>): real {
    if vs == [] then 0.0 else Sum(AllButLast(vs)) + Last(vs)
  }

  /** `sum(vs) / len(vs)`: defined only for a non-empty list. */
  function Mean(vs: seq<real>): real
    requires |vs| > 0
  {
    Sum(vs) / (|vs| as real)
  }

  /** The set of years that occur in `obs`. */
  function Years(obs: seq<Observation>): set<int> {
    set i | 0 <= i < |obs| :: obs[i].year
  }

  /** The values recorded under `year`, in stream order. */
  function ValuesOf(obs: seq<Observation>, year: int): seq<real> {
    if obs == [] then []
    else ValuesOf(AllButLast(obs), year) + (if Last(obs).year == year then [Last(obs).value] else [])
  }

  /** Every year occupies one block of consecutive observations. */
  ghost predicate Contiguous(obs: seq<Observation>) {
    forall i, j, k :: 0 <= i < j < k < |obs| && obs[i].year == obs[k].year ==> obs[j].year == obs[i].year
  }

  ghost predicate NonEmptyRuns(rs: seq<Run>) {
    forall i :: 0 <= i < |rs| ==> rs[i].values != []
  }

  /** Neighbouring runs have different years, so no run could be extended. */
  ghost predicate Maximal(rs: seq<Run>) {
    forall i :: 0 <= i < |rs| - 1 ==> rs[i].year != rs[i + 1].year
  }

  ghost predicate DistinctYears(rs: seq<Run>) {
    forall i, j :: 0 <= i < j < |rs| ==> rs[i].year != rs[j].year
  }

  function RunYears(rs: seq<Run>): set<int> {
    set i | 0 <= i < |rs| :: rs[i].year
  }

  /** The observations a run stands for. */
  function Tagged(year: int, vs: seq<real>): (os: seq<Observation>)
    ensures |os| == |vs|
    ensures forall i :: 0 <= i < |vs| ==> os[i] == Observation(year, vs[i])
  {
    seq(|vs|, i requires 0 <= i < |vs| => Observation(year, vs[i]))
  }

  /** The observations a sequence of runs stands for, in order. */
  function Flatten(rs: seq<Run>): seq<Observation> {
    if rs == [] then [] else Flatten(AllButLast(rs)) + Tagged(Last(rs).year, Last(rs).values)
  }

  /** The decomposition of `obs` into maximal runs (RunsFlatten shows it loses and reorders nothing). */
  function Runs(obs: seq<Observation>): (rs: seq<Run>)
    ensures NonEmptyRuns(rs) && Maximal(rs)
    ensures rs == [] <==> obs == []
    ensures rs != [] ==> Last(rs).year == Last(obs).year
    decreases |obs|
  {
    if obs == [] then []
    else
      var rs := Runs(AllButLast(obs));
      var o := Last(obs);
      if rs != [] && Last(rs).year == o.year then AllButLast(rs) + [Run(o.year, Last(rs).values + [o.value])]
      else rs + [Run(o.year, [o.value])]
  }

  /** Reading one more observation either extends the last run or starts a new one. */
  lemma RunsSnoc(obs: seq<Observation>, o: Observation)
    ensures Runs(obs + [o]) ==
      if Runs(obs) != [] && Last(Runs(obs)).year == o.year
      then AllButLast(Runs(obs)) + [Run(o.year, Last(Runs(obs)).values + [o.value])]
      else Runs(obs) + [Run(o.year, [o.value])]
  {
    assert AllButLast(obs + [o]) == obs;
  }

  /** The runs, read back as observations, are the stream itself. */
  lemma {:induction false} RunsFlatten(obs: seq<Observation>)
    ensures Flatten(Runs(obs)) == obs
  {
    if obs != [] {
      var p, o := AllButLast(obs), Last(obs);
      assert obs == p + [o];
      RunsFlatten(p);
      RunsSnoc(p, o);
      var rs := Runs(p);
      if rs != [] && Last(rs).year == o.year {
        var r := Run(o.year, Last(rs).values + [o.value]);
        assert Tagged(r.year, r.values) == Tagged(o.year, Last(rs).values) + [o];
        assert AllButLast(AllButLast(rs) + [r]) == AllButLast(rs);
        assert rs == AllButLast(rs) + [Last(rs)];
      } else {
        assert AllButLast(rs + [Run(o.year, [o.value])]) == rs;
      }
    }
  }

  /** The map after closing out each run of `rs` in turn onto `init`. */
  function Closed(init: map<int, real>, rs: seq<Run>): (m: map<int, real>)
    requires NonEmptyRuns(rs)
    ensures m.Keys == init.Keys + RunYears(rs)
  {
    if rs == [] then init
    else
      assert RunYears(rs) == RunYears(AllButLast(rs)) + {Last(rs).year} by {
        assert forall i :: 0 <= i < |rs| - 1 ==> AllButLast(rs)[i] == rs[i];
      }
      Closed(init, AllButLast(rs))[Last(rs).year := Mean(Last(rs).values)]
  }

  /** The stored map while observations are still being read: every run but the last is closed out. */
  function ClosedOut(init: map<int, real>, obs: seq<Observation>): map<int, real> {
    var rs := Runs(obs);
    if rs == [] then init else Closed(init, AllButLast(rs))
  }

  /** The stored map once the stream ends: the last run is flushed only under a new key. */
  function Flushed(init: map<int, real>, obs: seq<Observation>): map<int, real> {
    var rs := Runs(obs);
    if rs == [] then init
    else
      var m := Closed(init, AllButLast(rs));
      if Last(rs).year in m then m else m[Last(rs).year := Mean(Last(rs).values)]
  }

  /** The per-year table a load into an empty table produces. */
  function AverageOfRuns(obs: seq<Observation>): map<int, real> {
    Flushed(map[], obs)
  }

  /** `first_year` after reading `obs`: set by the first observation only if still unset. */
  function NextFirstYear(prev: Option<int>, obs: seq<Observation>): Option<int> {
    if prev.Some? || obs == [] then prev else Some(obs[0].year)
  }

  /** `last_year` after reading `obs`: overwritten by every observation. */
  function NextLastYear(prev: Option<int>, obs: seq<Observation>): Option<int> {
    if obs == [] then prev else Some(Last(obs).year)
  }

  // ---------------------------------------------------------------------
  // Keys

  lemma YearsSnoc(obs: seq<Observation>, o: Observation)
    ensures Years(obs + [o]) == Years(obs) + {o.year}
  {
    var s := obs + [o];
    assert forall i :: 0 <= i < |obs| ==> s[i] == obs[i];
    assert s[|obs|] == o;
  }

  lemma RunYearsSnoc(rs: seq<Run>, r: Run)
    ensures RunYears(rs + [r]) == RunYears(rs) + {r.year}
  {
    var s := rs + [r];
    assert forall i :: 0 <= i < |rs| ==> s[i] == rs[i];
    assert s[|rs|] == r;
  }

  /** The runs cover exactly the years of the stream. */
  lemma {:induction false} RunYearsAreYears(obs: seq<Observation>)
    ensures RunYears(Runs(obs)) == Years(obs)
  {
    if obs != [] {
      var p, o := AllButLast(obs), Last(obs);
      assert obs == p + [o];
      RunYearsAreYears(p);
      YearsSnoc(p, o);
      var rs := Runs(p);
      if rs != [] && Last(rs).year == o.year {
        assert rs == AllButLast(rs) + [Last(rs)];
        RunYearsSnoc(AllButLast(rs), Last(rs));
        RunYearsSnoc(AllButLast(rs), Run(o.year, Last(rs).values + [o.value]));
      } else {
        RunYearsSnoc(rs, Run(o.year, [o.value]));
      }
    }
  }

  /** Keys after a load: the keys that were there plus every year observed, and nothing else. */
  lemma FlushedKeys(init: map<int, real>, obs: seq<Observation>)
    ensures Flushed(init, obs).Keys == init.Keys + Years(obs)
    ensures ClosedOut(init, obs).Keys <= Flushed(init, obs).Keys
  {
    RunYearsAreYears(obs);
    var rs := Runs(obs);
    if rs != [] {
      assert rs == AllButLast(rs) + [Last(rs)];
      RunYearsSnoc(AllButLast(rs), Last(rs));
    }
  }

  /** On a fresh table, the keys are exactly the years seen. */
  lemma AverageKeys(obs: seq<Observation>)
    ensures AverageOfRuns(obs).Keys == Years(obs)
  {
    FlushedKeys(map[], obs);
  }

  // ---------------------------------------------------------------------
  // Values

  /** A run's mean survives in the table unless a later run of the same year is closed out after it. */
  lemma {:induction false} ClosedLastWriter(init: map<int, real>, rs: seq<Run>, j: nat)
    requires NonEmptyRuns(rs)
    requires j < |rs|
    requires forall k :: j < k < |rs| ==> rs[k].year != rs[j].year
    ensures rs[j].year in Closed(init, rs)
    ensures Closed(init, rs)[rs[j].year] == Mean(rs[j].values)
  {
    if j < |rs| - 1 {
      ClosedLastWriter(init, AllButLast(rs), j);
    }
  }

  /** A year not closed out by any run keeps the value it had. */
  lemma {:induction false} ClosedUntouched(init: map<int, real>, rs: seq<Run>, y: int)
    requires NonEmptyRuns(rs)
    requires y in init
    requires forall k :: 0 <= k < |rs| ==> rs[k].year != y
    ensures Closed(init, rs)[y] == init[y]
  {
    if rs != [] {
      ClosedUntouched(init, AllButLast(rs), y);
    }
  }

  /**
   * Nothing else changes: a year already in the table that the stream
   * never mentions keeps its prior value, both mid-stream and after the
   * final flush, so a second load preserves the years it does not observe.
   */
  lemma UnobservedYearsKept(init: map<int, real>, obs: seq<Observation>, y: int)
    requires y in init && y !in Years(obs)
    ensures y in ClosedOut(init, obs) && ClosedOut(init, obs)[y] == init[y]
    ensures y in Flushed(init, obs) && Flushed(init, obs)[y] == init[y]
  {
    RunYearsAreYears(obs);
    var rs := Runs(obs);
    if rs != [] {
      forall k | 0 <= k < |AllButLast(rs)|
        ensures AllButLast(rs)[k].year != y
      {
        assert AllButLast(rs)[k] == rs[k];
        assert rs[k].year in RunYears(rs);
      }
      ClosedUntouched(init, AllButLast(rs), y);
      assert Last(rs).year in RunYears(rs);
    }
  }

  /**
   * The value stored for a year whose latest closed-out run is run `j`
   * (not the last run) is that run's mean: mid-stream close-outs overwrite
   * earlier ones, and the final flush never overwrites it, even when the
   * last run has the same year.
   */
  lemma StoredValueIsLatestClosedRun(obs: seq<Observation>, j: nat)
    requires j < |Runs(obs)| - 1
    requires forall k :: j < k < |Runs(obs)| - 1 ==> Runs(obs)[k].year != Runs(obs)[j].year
    ensures Runs(obs)[j].year in AverageOfRuns(obs)
    ensures AverageOfRuns(obs)[Runs(obs)[j].year] == Mean(Runs(obs)[j].values)
  {
    var rs := Runs(obs);
    ClosedLastWriter(map[], AllButLast(rs), j);
  }

  /** The last run is stored by the final flush when its year had no earlier run. */
  lemma FinalRunStoredWhenNew(obs: seq<Observation>)
    requires obs != []
    requires forall k :: 0 <= k < |Runs(obs)| - 1 ==> Runs(obs)[k].year != Last(obs).year
    ensures AverageOfRuns(obs)[Last(obs).year] == Mean(Last(Runs(obs)).values)
  {
    var rs := Runs(obs);
    var m := Closed(map[], AllButLast(rs));
    assert Last(rs).year !in RunYears(AllButLast(rs));
  }

  lemma {:induction false} ValuesOfAbsent(obs: seq<Observation>, y: int)
    requires y !in Years(obs)
    ensures ValuesOf(obs, y) == []
  {
    if obs != [] {
      assert obs == AllButLast(obs) + [Last(obs)];
      YearsSnoc(AllButLast(obs), Last(obs));
      ValuesOfAbsent(AllButLast(obs), y);
    }
  }

  /** In year-contiguous input, a year that differs from the one before it has not occurred yet. */
  lemma ContiguousNewYear(obs: seq<Observation>)
    requires Contiguous(obs)
    requires |obs| >= 2 && obs[|obs| - 2].year != Last(obs).year
    ensures Last(obs).year !in Years(AllButLast(obs))
  {
    var p := AllButLast(obs);
    forall i | 0 <= i < |p|
      ensures p[i].year != Last(obs).year
    {
      assert p[i] == obs[i];
    }
  }

  /** For year-contiguous input the runs have distinct years and each holds all of its year's values. */
  lemma {:induction false} RunsOfContiguous(obs: seq<Observation>)
    requires Contiguous(obs)
    ensures DistinctYears(Runs(obs))
    ensures forall i :: 0 <= i < |Runs(obs)| ==> Runs(obs)[i].values == ValuesOf(obs, Runs(obs)[i].year)
  {
    if obs != [] {
      var p, o := AllButLast(obs), Last(obs);
      assert Contiguous(p) by {
        assert forall i :: 0 <= i < |p| ==> p[i] == obs[i];
      }
      RunsOfContiguous(p);
      var rs := Runs(p);
      if rs != [] && Last(rs).year == o.year {
        RunExtended(obs, rs);
      } else {
        if p != [] {
          ContiguousNewYear(obs);
        }
        ValuesOfAbsent(p, o.year);
        RunYearsAreYears(p);
        RunStarted(obs, rs);
      }
    }
  }

  /** Induction step of RunsOfContiguous when the last observation extends the last run. */
  lemma RunExtended(obs: seq<Observation>, rs: seq<Run>)
    requires obs != [] && rs == Runs(AllButLast(obs))
    requires rs != [] && Last(rs).year == Last(obs).year
    requires DistinctYears(rs)
    requires forall i :: 0 <= i < |rs| ==> rs[i].values == ValuesOf(AllButLast(obs), rs[i].year)
    ensures DistinctYears(Runs(obs))
    ensures forall i :: 0 <= i < |Runs(obs)| ==> Runs(obs)[i].values == ValuesOf(obs, Runs(obs)[i].year)
  {
    var o := Last(obs);
    var rs' := Runs(obs);
    assert rs' == AllButLast(rs) + [Run(o.year, Last(rs).values + [o.value])];
    forall i | 0 <= i < |rs'|
      ensures rs'[i].year == rs[i].year
      ensures rs'[i].values == ValuesOf(obs, rs'[i].year)
    {
      if i < |rs| - 1 {
        assert rs'[i] == rs[i] && rs[i].year != o.year;
      }
    }
  }

  /** Induction step of RunsOfContiguous when the last observation starts a run of a new year. */
  lemma RunStarted(obs: seq<Observation>, rs: seq<Run>)
    requires obs != [] && rs == Runs(AllButLast(obs))
    requires rs == [] || Last(rs).year != Last(obs).year
    requires Last(obs).year !in RunYears(rs)
    requires ValuesOf(AllButLast(obs), Last(obs).year) == []
    requires DistinctYears(rs)
    requires forall i :: 0 <= i < |rs| ==> rs[i].values == ValuesOf(AllButLast(obs), rs[i].year)
    ensures DistinctYears(Runs(obs))
    ensures forall i :: 0 <= i < |Runs(obs)| ==> Runs(obs)[i].values == ValuesOf(obs, Runs(obs)[i].year)
  {
    var o := Last(obs);
    var rs' := Runs(obs);
    assert rs' == rs + [Run(o.year, [o.value])];
    forall i | 0 <= i < |rs|
      ensures rs'[i] == rs[i] && rs[i].year != o.year
    {
      assert rs[i].year in RunYears(rs);
    }
  }

  /**
   * For year-contiguous input, every year seen is a key and its value is
   * the arithmetic mean of exactly the values recorded under that year.
   */
  lemma ContiguousMeans(obs: seq<Observation>, y: int)
    requires Contiguous(obs)
    requires y in Years(obs)
    ensures ValuesOf(obs, y) != []
    ensures y in AverageOfRuns(obs) && AverageOfRuns(obs)[y] == Mean(ValuesOf(obs, y))
  {
    RunsOfContiguous(obs);
    RunYearsAreYears(obs);
    var rs := Runs(obs);
    var i :| 0 <= i < |rs| && rs[i].year == y;
    if i < |rs| - 1 {
      StoredValueIsLatestClosedRun(obs, i);
    } else {
      FinalRunStoredWhenNew(obs);
    }
  }

  // ---------------------------------------------------------------------
  // Bounds

  /**
   * The bounds follow stream order: a load into a fresh object sets
   * `first_year` to the first observation's year and `last_year` to the
   * last one's; a bound already set keeps its `first_year`.
   */
  lemma BoundsFollowStreamOrder(prev: Option<int>, obs: seq<Observation>)
    requires obs != []
    ensures NextFirstYear(None, obs) == Some(obs[0].year)
    ensures prev.Some? ==> NextFirstYear(prev, obs) == prev
    ensures NextLastYear(prev, obs) == Some(Last(obs).year)
  {
  }

  /** How one more observation moves the bounds. */
  lemma BoundsStep(prev: Option<int>, obs: seq<Observation>, o: Observation)
    ensures NextFirstYear(prev, obs + [o]) == if NextFirstYear(prev, obs).None? then Some(o.year) else NextFirstYear(prev, obs)
    ensures NextLastYear(prev, obs + [o]) == Some(o.year)
  {
    if obs != [] {
      assert (obs + [o])[0] == obs[0];
    }
  }

  /** Both bounds of a complete, non-empty fresh load are keys of the table. */
  lemma BoundsAreKeys(obs: seq<Observation>)
    requires obs != []
    ensures NextFirstYear(None, obs).value in AverageOfRuns(obs)
    ensures NextLastYear(None, obs).value in AverageOfRuns(obs)
  {
    AverageKeys(obs);
    assert obs[0].year in Years(obs);
    assert obs[|obs| - 1].year in Years(obs);
  }

  /** In a stream sorted by year, every year seen lies between the first and the last one. */
  lemma SortedYearsBetween(obs: seq<Observation>, y: int)
    requires obs != []
    requires forall i, j :: 0 <= i < j < |obs| ==> obs[i].year <= obs[j].year
    requires y in Years(obs)
    ensures obs[0].year <= y <= Last(obs).year
  {
    var i :| 0 <= i < |obs| && obs[i].year == y;
    assert i == 0 || obs[0].year <= obs[i].year;
    assert i == |obs| - 1 || obs[i].year <= obs[|obs| - 1].year;
  }

  /** For input sorted by year, the stream-order bounds are the least and the greatest key. */
  lemma SortedBoundsAreMinMax(obs: seq<Observation>, y: int)
    requires obs != []
    requires forall i, j :: 0 <= i < j < |obs| ==> obs[i].year <= obs[j].year
    requires y in AverageOfRuns(obs)
    ensures NextFirstYear(None, obs).value <= y <= NextLastYear(None, obs).value
  {
    assert y in Years(obs) by {
      AverageKeys(obs);
    }
    SortedYearsBetween(obs, y);
  }

  /** On unsorted input `last_year` is the last year read, which can be below the greatest key. */
  lemma UnsortedLastYearIsNotMax()
    ensures var obs := [Observation(2011, 1.0), Observation(2010, 2.0)];
            NextLastYear(None, obs) == Some(2010) && 2011 in AverageOfRuns(obs)
  {
    var obs := [Observation(2011, 1.0), Observation(2010, 2.0)];
    AverageKeys(obs);
    assert obs[0].year in Years(obs);
  }

  /** Two readings of one year followed by one of another year form two runs. */
  lemma RunsOfThree(o1: Observation, o2: Observation, o3: Observation)
    requires o1.year == o2.year && o2.year != o3.year
    ensures Runs([o1, o2, o3]) == [Run(o1.year, [o1.value, o2.value]), Run(o3.year, [o3.value])]
  {
    RunsSnoc([], o1);
    assert [] + [o1] == [o1];
    RunsSnoc([o1], o2);
    assert [o1] + [o2] == [o1, o2];
    assert AllButLast([Run(o1.year, [o1.value])]) == [];
    assert [o1.value] + [o2.value] == [o1.value, o2.value];
    RunsSnoc([o1, o2], o3);
    assert [o1, o2] + [o3] == [o1, o2, o3];
  }

  lemma MeanExample()
    ensures Mean([218.056, 216.687]) == 217.3715
    ensures Mean([220.223]) == 220.223
  {
    assert AllButLast([218.056, 216.687]) == [218.056];
    assert AllButLast([218.056]) == [];
    assert AllButLast([220.223]) == [];
  }

  /** A stream of two runs of different years stores both means. */
  lemma AverageOfTwoRuns(obs: seq<Observation>, r1: Run, r2: Run)
    requires Runs(obs) == [r1, r2] && r1.values != [] && r2.values != []
    ensures AverageOfRuns(obs) == map[r1.year := Mean(r1.values), r2.year := Mean(r2.values)]
  {
    assert AllButLast([r1, r2]) == [r1];
    assert AllButLast([r1]) == [];
  }

  /** Two readings for 2010 and one for 2011 average to one value per year. */
  lemma AverageOfRunsExample()
    ensures AverageOfRuns([Observation(2010, 218.056), Observation(2010, 216.687), Observation(2011, 220.223)])
         == map[2010 := 217.3715, 2011 := 220.223]
  {
    RunsOfThree(Observation(2010, 218.056), Observation(2010, 216.687), Observation(2011, 220.223));
    MeanExample();
    AverageOfTwoRuns([Observation(2010, 218.056), Observation(2010, 216.687), Observation(2011, 220.223)],
      Run(2010, [218.056, 216.687]), Run(2011, [220.223]));
  }
}
