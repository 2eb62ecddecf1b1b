/**
 * `buildTimeSeries` (src/utils/series.ts): the records' dates are parsed and
 * the records outside the date window dropped, then, when a country is
 * selected, those of other countries; what is left is grouped by the
 * `YYYY-MM-DD` key of its UTC day, cases and deaths summed per day, and the
 * points returned in ascending key order.
 *
 * The grouping loop is a method whose invariant ties the `grouped` map and
 * its insertion order to `PointsOf`, one point per distinct day stated from
 * the records; the lemmas below say what the sorted series means.
 */
module Series {
  import opened Wrappers
  import opened Strings
  import opened Sorting
  import opened Sequences
  import opened Calendar
  import opened Records
  import Aggregate

  /** `ChartPoint`: a day's `YYYY-MM-DD` key with its summed cases and deaths. */
  datatype ChartPoint = ChartPoint(date: string, cases: int, deaths: int)

  /** A `grouped` bucket: `{ cases, deaths }` summed so far for one day. */
  datatype Totals = Totals(cases: int, deaths: int)

  // ---------------------------------------------------------------------------
  // Selecting the records

  /** `(selectedCountry ?? "").trim()`. */
  function NormalizeCountry(selectedCountry: Option<string>): string {
    Trim(selectedCountry.GetOr(""))
  }

  /**
   * `filteredByCountry`: the records whose date lies in the window, then,
   * unless the selection is blank, those whose country is exactly the
   * selected one.
   */
  function Contributing(xs: seq<Dated>, range: DateRange, selectedCountry: Option<string>): seq<Dated> {
    var normalizedCountry := NormalizeCountry(selectedCountry);
    var filteredByDate := InWindow(xs, range);
    if normalizedCountry == "" then filteredByDate else OfCountry(filteredByDate, normalizedCountry)
  }

  /**
   * A record contributes exactly when its date is in the window and, for a
   * non-blank trimmed selection, its country equals that selection.
   */
  lemma ContributingSpec(xs: seq<Dated>, range: DateRange, selectedCountry: Option<string>)
    ensures forall x :: x in Contributing(xs, range, selectedCountry) <==>
      && x in xs
      && InRange(range, x)
      && (NormalizeCountry(selectedCountry) == "" || CountryOf(x) == NormalizeCountry(selectedCountry))
  {
    InWindowSpec(xs, range);
    OfCountrySpec(InWindow(xs, range), NormalizeCountry(selectedCountry));
  }

  /** A `null` or blank selection keeps every country: all records in the window contribute. */
  lemma NoSelectionKeepsAllCountries(xs: seq<Dated>, range: DateRange, selectedCountry: Option<string>)
    requires selectedCountry.None? || Trim(selectedCountry.value) == ""
    ensures Contributing(xs, range, selectedCountry) == InWindow(xs, range)
  {
  }

  // ---------------------------------------------------------------------------
  // Points

  /** One day's bucket: the sums of cases and deaths of the records on that day. */
  function DayTotals(ys: seq<Dated>, day: Day): Totals {
    Totals(Sum(OnDay(ys, day), Cases), Sum(OnDay(ys, day), Deaths))
  }

  /** The keys of the days with records, in order of first appearance. */
  function KeysOf(ys: seq<Dated>): (keys: seq<string>)
    ensures |keys| == |DaysOf(ys)|
    ensures forall k :: 0 <= k < |keys| ==> IsValidDay(DaysOf(ys)[k]) && keys[k] == IsoDate(DaysOf(ys)[k])
  {
    DaysAreValid(ys);
    var days := DaysOf(ys);
    seq(|days|, k requires 0 <= k < |days| => IsoDate(days[k]))
  }

  /** The point of one day. */
  function PointOf(ys: seq<Dated>, day: Day): ChartPoint
    requires IsValidDay(day)
  {
    var totals := DayTotals(ys, day);
    ChartPoint(IsoDate(day), totals.cases, totals.deaths)
  }

  /** The points of the given days, in their order. */
  function PointsOn(ys: seq<Dated>, days: seq<Day>): (points: seq<ChartPoint>)
    requires forall day :: day in days ==> IsValidDay(day)
    ensures |points| == |days|
  {
    seq(|days|, k requires 0 <= k < |days| => PointOf(ys, days[k]))
  }

  /** One point per day with records, in order of first appearance. */
  function PointsOf(ys: seq<Dated>): (points: seq<ChartPoint>)
    ensures |points| == |DaysOf(ys)|
  {
    DaysAreValid(ys);
    PointsOn(ys, DaysOf(ys))
  }

  /** `a.date.localeCompare(b.date) <= 0`. */
  predicate DateLe(a: ChartPoint, b: ChartPoint) {
    LexLe(a.date, b.date)
  }

  lemma DateLeIsTotalPreorder()
    ensures IsTotalPreorder(DateLe)
  {
    forall a, b
      ensures DateLe(a, b) || DateLe(b, a)
    {
      LexLeTotal(a.date, b.date);
    }
    forall a, b, c | DateLe(a, b) && DateLe(b, c)
      ensures DateLe(a, c)
    {
      LexLeTransitive(a.date, b.date, c.date);
    }
  }

  /** The `sort` by date key: a permutation of the points, ascending by key. */
  function SortByDate(points: seq<ChartPoint>): (r: seq<ChartPoint>)
    ensures multiset(r) == multiset(points)
    ensures forall i, j :: 0 <= i < j < |r| ==> LexLe(r[i].date, r[j].date)
  {
    DateLeIsTotalPreorder();
    var r := InsertionSort(points, DateLe);
    assert forall i, j :: 0 <= i < j < |r| ==> DateLe(r[i], r[j]);
    r
  }

  /** The series `buildTimeSeries` returns for successfully parsed records. */
  function TimeSeries(xs: seq<Dated>, range: DateRange, selectedCountry: Option<string>): seq<ChartPoint> {
    SortByDate(PointsOf(Contributing(xs, range, selectedCountry)))
  }

  // ---------------------------------------------------------------------------
  // The grouping loop

  /**
   * The state of the grouping after the records `ys`: `keys`, the map's
   * insertion order, lists the key of each day with records, the map holds
   * those keys and no other, and each holds its day's bucket.
   */
  ghost predicate Groups(grouped: map<string, Totals>, keys: seq<string>, ys: seq<Dated>) {
    && keys == KeysOf(ys)
    && (forall key :: key in grouped <==> key in keys)
    && (forall k :: 0 <= k < |keys| ==> grouped[keys[k]] == DayTotals(ys, DaysOf(ys)[k]))
  }

  /** A day's key is listed exactly when the day is. */
  lemma KeysOfMembership(ys: seq<Dated>, day: Day)
    requires IsValidDay(day)
    ensures IsoDate(day) in KeysOf(ys) <==> day in DaysOf(ys)
  {
    DaysAreValid(ys);
    var days := DaysOf(ys);
    if IsoDate(day) in KeysOf(ys) {
      var k :| 0 <= k < |days| && KeysOf(ys)[k] == IsoDate(day);
      IsoDateInjective(day, days[k]);
    }
    if day in days {
      var k :| 0 <= k < |days| && days[k] == day;
      assert KeysOf(ys)[k] == IsoDate(day);
    }
  }

  /** One more record adds its counts to its own day's bucket. */
  lemma DayTotalsAddOwn(ys: seq<Dated>, x: Dated)
    ensures DayTotals(ys + [x], DayOf(x)) ==
      Totals(DayTotals(ys, DayOf(x)).cases + x.record.cases, DayTotals(ys, DayOf(x)).deaths + x.record.deaths)
  {
    var before := OnDay(ys, DayOf(x));
    OnDaySnoc(ys, x, DayOf(x));
    assert OnDay(ys + [x], DayOf(x)) == before + [x];
    SumSnoc(before, x, Cases);
    SumSnoc(before, x, Deaths);
  }

  /** One more record leaves the buckets of the other days alone. */
  lemma DayTotalsAddOther(ys: seq<Dated>, x: Dated, day: Day)
    requires DayOf(x) != day
    ensures DayTotals(ys + [x], day) == DayTotals(ys, day)
  {
    OnDaySnoc(ys, x, day);
    assert OnDay(ys, day) + [] == OnDay(ys, day);
  }

  /** A record on a new day appends that day's key; one on a known day changes nothing. */
  lemma KeysOfSnoc(ys: seq<Dated>, x: Dated)
    ensures DayOf(x) in DaysOf(ys) ==> KeysOf(ys + [x]) == KeysOf(ys)
    ensures DayOf(x) !in DaysOf(ys) ==> KeysOf(ys + [x]) == KeysOf(ys) + [IsoDate(DayOf(x))]
  {
    DaysOfSnoc(ys, x);
    DaysAreValid(ys + [x]);
    var days, days' := DaysOf(ys), DaysOf(ys + [x]);
    forall k | 0 <= k < |days|
      ensures KeysOf(ys + [x])[k] == KeysOf(ys)[k]
    {
      assert days'[k] == days[k];
    }
  }

  /** A record's day bucket once the record is added: the bucket so far, or zero, plus its counts. */
  function Bumped(grouped: map<string, Totals>, x: Dated): Totals {
    var key := DayKey(x.parsedDate);
    var bucket := if key in grouped then grouped[key] else Totals(0, 0);
    Totals(bucket.cases + x.record.cases, bucket.deaths + x.record.deaths)
  }

  /** One pass of the loop body: the record's day bucket replaced by the bumped one. */
  function AddToBucket(grouped: map<string, Totals>, x: Dated): map<string, Totals> {
    grouped[DayKey(x.parsedDate) := Bumped(grouped, x)]
  }

  /** The map the loop has built after the records `ys`. */
  function Grouped(ys: seq<Dated>): map<string, Totals> {
    if ys == [] then map[] else AddToBucket(Grouped(ys[..|ys| - 1]), ys[|ys| - 1])
  }

  lemma GroupedSnoc(ys: seq<Dated>, x: Dated)
    ensures Grouped(ys + [x]) == AddToBucket(Grouped(ys), x)
  {
    assert (ys + [x])[..|ys|] == ys;
  }

  /** A valid day's key is in the map exactly when the day has records. */
  lemma {:induction false} GroupedHasDay(ys: seq<Dated>, day: Day)
    requires IsValidDay(day)
    ensures IsoDate(day) in Grouped(ys) <==> day in DaysOf(ys)
  {
    if ys != [] {
      var init, x := ys[..|ys| - 1], ys[|ys| - 1];
      assert ys == init + [x];
      GroupedHasDay(init, day);
      GroupedSnoc(init, x);
      DaysOfSnocMember(init, x, day);
      IsoDateInjective(DayOf(x), day);
    }
  }

  /** A listed day's bucket holds that day's sums. */
  lemma {:induction false} GroupedAt(ys: seq<Dated>, day: Day)
    requires IsValidDay(day) && day in DaysOf(ys)
    ensures IsoDate(day) in Grouped(ys) && Grouped(ys)[IsoDate(day)] == DayTotals(ys, day)
  {
    GroupedHasDay(ys, day);
    var init, x := ys[..|ys| - 1], ys[|ys| - 1];
    var key, before := IsoDate(day), Grouped(init);
    assert ys == init + [x];
    GroupedSnoc(init, x);
    assert Grouped(ys) == before[DayKey(x.parsedDate) := Bumped(before, x)];
    DaysOfSnocMember(init, x, day);
    GroupedHasDay(init, day);
    if DayOf(x) == day {
      assert DayKey(x.parsedDate) == key;
      if day in DaysOf(init) {
        GroupedAt(init, day);
      }
      BumpedOwnDay(init, x, before);
    } else {
      IsoDateInjective(DayOf(x), day);
      assert DayKey(x.parsedDate) != key;
      GroupedAt(init, day);
      DayTotalsAddOther(init, x, day);
    }
  }

  /** Adding a record to the grouping of the records before it gives its day's totals. */
  lemma BumpedOwnDay(init: seq<Dated>, x: Dated, before: map<string, Totals>)
    requires IsValidDay(DayOf(x))
    requires IsoDate(DayOf(x)) in before <==> DayOf(x) in DaysOf(init)
    requires IsoDate(DayOf(x)) in before ==> before[IsoDate(DayOf(x))] == DayTotals(init, DayOf(x))
    ensures Bumped(before, x) == DayTotals(init + [x], DayOf(x))
  {
    var key := IsoDate(DayOf(x));
    var bucket := if key in before then before[key] else Totals(0, 0);
    if key !in before {
      UnlistedDayIsEmpty(init, DayOf(x));
    }
    assert bucket == DayTotals(init, DayOf(x));
    DayTotalsAddOwn(init, x);
  }

  /** The map's keys are exactly the listed keys. */
  lemma {:induction false} GroupedHasKey(ys: seq<Dated>, key: string)
    ensures key in Grouped(ys) <==> key in KeysOf(ys)
  {
    if ys != [] {
      var init, x := ys[..|ys| - 1], ys[|ys| - 1];
      assert ys == init + [x];
      GroupedHasKey(init, key);
      GroupedSnoc(init, x);
      KeysOfSnoc(init, x);
      KeysOfMembership(init, DayOf(x));
    }
  }

  /** One pass of the loop keeps the map and its key order in step with the records seen. */
  lemma GroupedStep(ys: seq<Dated>, x: Dated, grouped: map<string, Totals>, keys: seq<string>, keys': seq<string>)
    requires grouped == Grouped(ys) && keys == KeysOf(ys)
    requires DayKey(x.parsedDate) in grouped ==> keys' == keys
    requires DayKey(x.parsedDate) !in grouped ==> keys' == keys + [DayKey(x.parsedDate)]
    ensures AddToBucket(grouped, x) == Grouped(ys + [x]) && keys' == KeysOf(ys + [x])
  {
    GroupedSnoc(ys, x);
    GroupedHasDay(ys, DayOf(x));
    KeysOfSnoc(ys, x);
  }

  /** The map built over all of `ys`, with its keys in first-seen order, is the grouping of `ys`. */
  lemma GroupedMeaning(ys: seq<Dated>)
    ensures Groups(Grouped(ys), KeysOf(ys), ys)
  {
    var grouped, keys, days := Grouped(ys), KeysOf(ys), DaysOf(ys);
    forall key
      ensures key in grouped <==> key in keys
    {
      GroupedHasKey(ys, key);
    }
    forall k | 0 <= k < |keys|
      ensures grouped[keys[k]] == DayTotals(ys, days[k])
    {
      GroupedAt(ys, days[k]);
    }
  }

  /** At the end of the loop its points, in insertion order, are `PointsOf` the records. */
  lemma GroupsPoints(grouped: map<string, Totals>, keys: seq<string>, ys: seq<Dated>)
    requires Groups(grouped, keys, ys)
    ensures
      var points := seq(|keys|, k requires 0 <= k < |keys| =>
        ChartPoint(keys[k], grouped[keys[k]].cases, grouped[keys[k]].deaths));
      points == PointsOf(ys)
  {
  }

  /**
   * The `for` loop of `buildTimeSeries` over `filteredByCountry`: each
   * record's counts are added to the bucket of its day key, a new key
   * entering the map (and the end of its insertion order `keys`) the first
   * time it is seen.
   */
  method GroupByDay(filteredByCountry: seq<Dated>) returns (grouped: map<string, Totals>, keys: seq<string>)
    ensures grouped == Grouped(filteredByCountry) && keys == KeysOf(filteredByCountry)
    ensures Groups(grouped, keys, filteredByCountry)
  {
    grouped, keys := map[], [];
    ghost var done: seq<Dated> := [];
    var i := 0;
    while i < |filteredByCountry|
      invariant 0 <= i <= |filteredByCountry| && done == filteredByCountry[..i]
      invariant grouped == Grouped(done) && keys == KeysOf(done)
    {
      var x := filteredByCountry[i];
      ghost var groupedBefore, keysBefore := grouped, keys;
      var dateKey := DayKey(x.parsedDate);
      var bucket;
      if dateKey in grouped {
        bucket := grouped[dateKey];
      } else {
        bucket := Totals(0, 0);
        keys := keys + [dateKey];
      }
      bucket := Totals(bucket.cases + x.record.cases, bucket.deaths + x.record.deaths);
      assert bucket == Bumped(groupedBefore, x);
      grouped := grouped[dateKey := bucket];
      GroupedStep(done, x, groupedBefore, keysBefore, keys);
      PrefixSnoc(filteredByCountry, i);
      done := done + [x];
      i := i + 1;
    }
    assert done == filteredByCountry;
    GroupedMeaning(filteredByCountry);
  }

  /**
   * `buildTimeSeries`: the series of the parsed records, or the error of the
   * first record whose date does not parse, whatever the window and the
   * selection.
   */
  method BuildTimeSeries(records: seq<CovidRecord>, filters: Aggregate.AggregationFilters, selectedCountry: Option<string>)
    returns (r: Result<seq<ChartPoint>, DateError>)
    ensures MapResult(ParseRecord, records).Failure? ==>
      r == Failure(MapResult(ParseRecord, records).error)
    ensures MapResult(ParseRecord, records).Success? ==>
      r == Success(TimeSeries(MapResult(ParseRecord, records).value, filters.dateRange, selectedCountry))
  {
    var normalizedCountry := Trim(selectedCountry.GetOr(""));
    var parsed := MapResult(ParseRecord, records);
    if parsed.Failure? {
      return Failure(parsed.error);
    }
    var filteredByDate := InWindow(parsed.value, filters.dateRange);
    var filteredByCountry :=
      if normalizedCountry == "" then filteredByDate else OfCountry(filteredByDate, normalizedCountry);
    var grouped, keys := GroupByDay(filteredByCountry);
    GroupsPoints(grouped, keys, filteredByCountry);
    var points := seq(|keys|, k requires 0 <= k < |keys| =>
      ChartPoint(keys[k], grouped[keys[k]].cases, grouped[keys[k]].deaths));
    r := Success(SortByDate(points));
  }

  // ---------------------------------------------------------------------------
  // What the series means

  /** One count of a point, as a function for summing over a series. */
  function PointCount(c: Count): ChartPoint -> int {
    (p: ChartPoint) => match c case Cases => p.cases case Deaths => p.deaths
  }

  /** The points of distinct days carry distinct keys. */
  lemma PointsOfDistinctDates(ys: seq<Dated>)
    ensures forall i, j :: 0 <= i < j < |PointsOf(ys)| ==> PointsOf(ys)[i].date != PointsOf(ys)[j].date
    ensures Distinct(PointsOf(ys))
  {
    DaysOfSpec(ys);
    DaysAreValid(ys);
    var days := DaysOf(ys);
    forall i, j | 0 <= i < j < |days|
      ensures PointsOf(ys)[i].date != PointsOf(ys)[j].date
    {
      IsoDateInjective(days[i], days[j]);
    }
  }

  /**
   * The series has one point for each day on which some contributing record
   * falls, and no other: its key is that day's `YYYY-MM-DD` and its cases and
   * deaths are the sums over the contributing records of that day.
   */
  lemma {:induction false} SeriesPointPerDay(xs: seq<Dated>, range: DateRange, selectedCountry: Option<string>)
    ensures
      var ys, series := Contributing(xs, range, selectedCountry), TimeSeries(xs, range, selectedCountry);
      && (forall x :: x in ys ==> PointOf(ys, DayOf(x)) in series)
      && (forall p :: p in series ==> exists x :: x in ys && p == PointOf(ys, DayOf(x)))
      && (forall x :: x in ys ==>
            && PointOf(ys, DayOf(x)).date == DayKey(x.parsedDate)
            && PointOf(ys, DayOf(x)).cases == Sum(OnDay(ys, DayOf(x)), Cases)
            && PointOf(ys, DayOf(x)).deaths == Sum(OnDay(ys, DayOf(x)), Deaths))
  {
    var ys := Contributing(xs, range, selectedCountry);
    PointsOfCover(ys);
    PointsOfListed(ys);
    PermutationSameMembers(PointsOf(ys), TimeSeries(xs, range, selectedCountry));
  }

  /** Each record's day has its point among the points. */
  lemma PointsOfCover(ys: seq<Dated>)
    ensures forall x :: x in ys ==> PointOf(ys, DayOf(x)) in PointsOf(ys)
  {
    var points, days := PointsOf(ys), DaysOf(ys);
    DaysOfSpec(ys);
    forall x | x in ys
      ensures PointOf(ys, DayOf(x)) in points
    {
      OnDaySpec(ys, DayOf(x));
      assert x in OnDay(ys, DayOf(x));
      var k :| 0 <= k < |days| && days[k] == DayOf(x);
      assert points[k] == PointOf(ys, DayOf(x));
    }
  }

  /** Each point is the point of some record's day. */
  lemma PointsOfListed(ys: seq<Dated>)
    ensures forall p :: p in PointsOf(ys) ==> exists x :: x in ys && p == PointOf(ys, DayOf(x))
  {
    var points, days := PointsOf(ys), DaysOf(ys);
    DaysOfSpec(ys);
    forall p | p in points
      ensures exists x :: x in ys && p == PointOf(ys, DayOf(x))
    {
      var k :| 0 <= k < |points| && points[k] == p;
      var day := days[k];
      OnDaySpec(ys, day);
      var x := OnDay(ys, day)[0];
      assert x in OnDay(ys, day);
      assert x in ys && p == PointOf(ys, DayOf(x));
    }
  }

  /** Keys are unique, so the sorted series is strictly ascending by key. */
  lemma SeriesStrictlyAscending(xs: seq<Dated>, range: DateRange, selectedCountry: Option<string>)
    ensures
      var series := TimeSeries(xs, range, selectedCountry);
      forall i, j :: 0 <= i < j < |series| ==> LexLess(series[i].date, series[j].date)
  {
    var points := PointsOf(Contributing(xs, range, selectedCountry));
    PointsOfDistinctDates(Contributing(xs, range, selectedCountry));
    SortedDistinctDatesAscend(points, SortByDate(points));
  }

  /** A date-sorted rearrangement of points with distinct dates is strictly ascending. */
  lemma SortedDistinctDatesAscend(points: seq<ChartPoint>, sorted: seq<ChartPoint>)
    requires multiset(sorted) == multiset(points)
    requires forall i, j :: 0 <= i < j < |points| ==> points[i].date != points[j].date
    requires Distinct(points)
    requires forall i, j :: 0 <= i < j < |sorted| ==> LexLe(sorted[i].date, sorted[j].date)
    ensures forall i, j :: 0 <= i < j < |sorted| ==> LexLess(sorted[i].date, sorted[j].date)
  {
    PermutationKeepsDistinct(points, sorted);
    forall i, j | 0 <= i < j < |sorted|
      ensures sorted[i].date != sorted[j].date
    {
      assert sorted[i] in multiset(points) && sorted[j] in multiset(points);
      var a :| 0 <= a < |points| && points[a] == sorted[i];
      var b :| 0 <= b < |points| && points[b] == sorted[j];
      if a != b {
        assert points[a].date != points[b].date by {
          if a < b {
            assert points[a].date != points[b].date;
          } else {
            assert points[b].date != points[a].date;
          }
        }
      }
    }
  }

  /**
   * Every point's key is the ISO date of a day inside the window, ends
   * included.
   */
  lemma SeriesWithinRange(xs: seq<Dated>, range: DateRange, selectedCountry: Option<string>)
    ensures forall p :: p in TimeSeries(xs, range, selectedCountry) ==>
      exists x ::
        && x in xs
        && p.date == DayKey(x.parsedDate)
        && DayLe(NormalizeDate(range.from).date, DayOf(x)) && DayLe(DayOf(x), NormalizeDate(range.to).date)
  {
    var ys := Contributing(xs, range, selectedCountry);
    SeriesPointPerDay(xs, range, selectedCountry);
    ContributingSpec(xs, range, selectedCountry);
    forall p | p in TimeSeries(xs, range, selectedCountry)
      ensures exists x ::
        && x in xs
        && p.date == DayKey(x.parsedDate)
        && DayLe(NormalizeDate(range.from).date, DayOf(x)) && DayLe(DayOf(x), NormalizeDate(range.to).date)
    {
      var x :| x in ys && p == PointOf(ys, DayOf(x));
      InRangeIsDayInterval(x.parsedDate, range.from, range.to);
    }
  }

  lemma {:induction false} SumOfPointsOn(ys: seq<Dated>, days: seq<Day>, c: Count)
    requires forall day :: day in days ==> IsValidDay(day)
    ensures SumOf(PointCount(c), PointsOn(ys, days)) == SumByDay(days, ys, c)
  {
    if days != [] {
      var init := days[..|days| - 1];
      assert PointsOn(ys, days)[..|days| - 1] == PointsOn(ys, init);
      SumOfPointsOn(ys, init, c);
    }
  }

  /**
   * The series' total cases and deaths are those of the contributing records:
   * grouping by day loses and duplicates nothing.
   */
  lemma SeriesTotals(xs: seq<Dated>, range: DateRange, selectedCountry: Option<string>, c: Count)
    ensures SumOf(PointCount(c), TimeSeries(xs, range, selectedCountry)) == Sum(Contributing(xs, range, selectedCountry), c)
  {
    var ys := Contributing(xs, range, selectedCountry);
    DaysAreValid(ys);
    SumOfPermutation(PointCount(c), PointsOf(ys), TimeSeries(xs, range, selectedCountry));
    SumOfPointsOn(ys, DaysOf(ys), c);
    PerDaySumsAddUp(ys, c);
  }

  /** When only one country reports on a day, that country's records of the day are all of them. */
  lemma OnlyCountryOfDay(ys: seq<Dated>, country: string, day: Day)
    requires forall y :: y in ys && DayOf(y) == day ==> CountryOf(y) == country
    ensures OnDay(OfCountry(ys, country), day) == OnDay(ys, day)
  {
    FilterCommutes(IsOnDay(day), IsOfCountry(country), ys);
    OnDaySpec(ys, day);
    FilterKeepsAll(IsOfCountry(country), OnDay(ys, day));
  }

  /**
   * The point of an in-window record's day is the same in the unselected
   * series and in the series of the record's own country, and is in both.
   */
  lemma RecordPointInBothSeries(xs: seq<Dated>, range: DateRange, x: Dated)
    requires CountryOf(x) != "" && Trim(CountryOf(x)) == CountryOf(x)
    requires forall x, y :: x in xs && y in xs && DayOf(x) == DayOf(y) ==> CountryOf(x) == CountryOf(y)
    requires x in InWindow(xs, range)
    ensures PointOf(InWindow(xs, range), DayOf(x)) in TimeSeries(xs, range, None)
    ensures PointOf(InWindow(xs, range), DayOf(x)) in TimeSeries(xs, range, Some(CountryOf(x)))
    ensures PointOf(OfCountry(InWindow(xs, range), CountryOf(x)), DayOf(x)) == PointOf(InWindow(xs, range), DayOf(x))
  {
    var ys, a := InWindow(xs, range), CountryOf(x);
    var ya := OfCountry(ys, a);
    assert Contributing(xs, range, Some(a)) == ya;
    InWindowSpec(xs, range);
    OfCountrySpec(ys, a);
    OnlyCountryOfDay(ys, a, DayOf(x));
    assert x in ya;
    PointsOfCover(ys);
    PointsOfCover(ya);
    PermutationSameMembers(PointsOf(ys), TimeSeries(xs, range, None));
    PermutationSameMembers(PointsOf(ya), TimeSeries(xs, range, Some(a)));
  }

  /** Each point of a selected country's series is the point of one of its in-window records' days. */
  lemma CountryPointOfRecord(xs: seq<Dated>, range: DateRange, a: string, p: ChartPoint)
    requires a != "" && Trim(a) == a
    requires p in TimeSeries(xs, range, Some(a))
    ensures exists x :: x in InWindow(xs, range) && CountryOf(x) == a && p == PointOf(OfCountry(InWindow(xs, range), a), DayOf(x))
  {
    var ya := OfCountry(InWindow(xs, range), a);
    assert Contributing(xs, range, Some(a)) == ya;
    PermutationSameMembers(PointsOf(ya), TimeSeries(xs, range, Some(a)));
    PointsOfListed(ya);
    OfCountrySpec(InWindow(xs, range), a);
  }

  /** Each point of the unselected series is the point of one of the in-window records' days. */
  lemma AllPointOfRecord(xs: seq<Dated>, range: DateRange, p: ChartPoint)
    requires p in TimeSeries(xs, range, None)
    ensures exists x :: x in xs && x in InWindow(xs, range) && p == PointOf(InWindow(xs, range), DayOf(x))
  {
    var ys := InWindow(xs, range);
    PermutationSameMembers(PointsOf(ys), TimeSeries(xs, range, None));
    PointsOfListed(ys);
    InWindowSpec(xs, range);
  }

  /** Two countries that share no day have series whose keys do not meet. */
  lemma CountrySeriesKeysApart(xs: seq<Dated>, range: DateRange, a: string, b: string, p: ChartPoint, q: ChartPoint)
    requires a != "" && Trim(a) == a && b != "" && Trim(b) == b && a != b
    requires forall x, y :: x in xs && y in xs && DayOf(x) == DayOf(y) ==> CountryOf(x) == CountryOf(y)
    requires p in TimeSeries(xs, range, Some(a)) && q in TimeSeries(xs, range, Some(b))
    ensures p.date != q.date
  {
    var ys := InWindow(xs, range);
    CountryPointOfRecord(xs, range, a, p);
    CountryPointOfRecord(xs, range, b, q);
    var x :| x in ys && CountryOf(x) == a && p == PointOf(OfCountry(ys, a), DayOf(x));
    var y :| y in ys && CountryOf(y) == b && q == PointOf(OfCountry(ys, b), DayOf(y));
    InWindowSpec(xs, range);
    IsoDateInjective(DayOf(x), DayOf(y));
  }

  /** A point of the unselected series over two countries is in the series of one of them. */
  lemma AllPointInCountrySeries(xs: seq<Dated>, range: DateRange, a: string, b: string, p: ChartPoint)
    requires a != "" && Trim(a) == a && b != "" && Trim(b) == b
    requires forall x :: x in xs ==> CountryOf(x) == a || CountryOf(x) == b
    requires forall x, y :: x in xs && y in xs && DayOf(x) == DayOf(y) ==> CountryOf(x) == CountryOf(y)
    requires p in TimeSeries(xs, range, None)
    ensures p in TimeSeries(xs, range, Some(a)) || p in TimeSeries(xs, range, Some(b))
  {
    var ys := InWindow(xs, range);
    AllPointOfRecord(xs, range, p);
    var x :| x in xs && x in ys && p == PointOf(ys, DayOf(x));
    assert CountryOf(x) == a || CountryOf(x) == b;
    RecordPointInBothSeries(xs, range, x);
  }

  /** A point of a selected country's series is in the unselected series. */
  lemma CountryPointInAllSeries(xs: seq<Dated>, range: DateRange, a: string, p: ChartPoint)
    requires a != "" && Trim(a) == a
    requires forall x, y :: x in xs && y in xs && DayOf(x) == DayOf(y) ==> CountryOf(x) == CountryOf(y)
    requires p in TimeSeries(xs, range, Some(a))
    ensures p in TimeSeries(xs, range, None)
  {
    var ys := InWindow(xs, range);
    CountryPointOfRecord(xs, range, a, p);
    var x :| x in ys && CountryOf(x) == a && p == PointOf(OfCountry(ys, a), DayOf(x));
    RecordPointInBothSeries(xs, range, x);
  }

  /**
   * With no country selected, for records of two countries no day of which
   * has records of both, the series is the union of the two single-country
   * series, and their keys do not meet.
   */
  lemma TwoCountriesSeriesUnion(xs: seq<Dated>, range: DateRange, a: string, b: string)
    requires a != "" && Trim(a) == a && b != "" && Trim(b) == b
    requires forall x :: x in xs ==> CountryOf(x) == a || CountryOf(x) == b
    requires forall x, y :: x in xs && y in xs && DayOf(x) == DayOf(y) ==> CountryOf(x) == CountryOf(y)
    ensures forall p :: p in TimeSeries(xs, range, None) <==>
      p in TimeSeries(xs, range, Some(a)) || p in TimeSeries(xs, range, Some(b))
    ensures a != b ==> forall p, q ::
      p in TimeSeries(xs, range, Some(a)) && q in TimeSeries(xs, range, Some(b)) ==> p.date != q.date
  {
    forall p | p in TimeSeries(xs, range, None)
      ensures p in TimeSeries(xs, range, Some(a)) || p in TimeSeries(xs, range, Some(b))
    {
      AllPointInCountrySeries(xs, range, a, b, p);
    }
    forall p | p in TimeSeries(xs, range, Some(a))
      ensures p in TimeSeries(xs, range, None)
    {
      CountryPointInAllSeries(xs, range, a, p);
    }
    forall p | p in TimeSeries(xs, range, Some(b))
      ensures p in TimeSeries(xs, range, None)
    {
      CountryPointInAllSeries(xs, range, b, p);
    }
    if a != b {
      forall p, q | p in TimeSeries(xs, range, Some(a)) && q in TimeSeries(xs, range, Some(b))
        ensures p.date != q.date
      {
        CountrySeriesKeysApart(xs, range, a, b, p, q);
      }
    }
  }

  /** No records, no points. */
  lemma EmptyInputEmptySeries(range: DateRange, selectedCountry: Option<string>)
    ensures TimeSeries([], range, selectedCountry) == []
  {
    var series := TimeSeries([], range, selectedCountry);
    assert |multiset(series)| == |multiset(PointsOf(Contributing([], range, selectedCountry)))| == 0;
  }
}
