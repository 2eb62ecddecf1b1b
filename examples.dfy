/**
 * The sample of the console helpers `debugAggregateSample` and
 * `debugBuildSeriesSample`: three records of Spain and France over two days
 * of December 2019, with the window 01/12/2019..02/12/2019 and no other
 * filter, worked through the model. The shape of the sample (two records of
 * one country on two days, one of another country on the first day) is
 * handled once for any such three records, then filled in with the sample's
 * values.
 */
module Samples {
  import opened Wrappers
  import opened Strings
  import opened Sequences
  import opened Calendar
  import opened Records
  import opened Aggregate
  import opened Series

  // ---------------------------------------------------------------------------
  // Three records: a and b of one country on two days, c of another on a's day

  predicate SampleShape(a: Dated, b: Dated, c: Dated) {
    && DayOf(a) == DayOf(c) && DayOf(a) != DayOf(b)
    && CountryOf(a) == CountryOf(b) && CountryOf(a) != CountryOf(c)
  }

  lemma ShapeDays(a: Dated, b: Dated, c: Dated)
    requires SampleShape(a, b, c)
    ensures DaysOf([a, b, c]) == [DayOf(a), DayOf(b)]
    ensures DayTotals([a, b, c], DayOf(a)) ==
      Totals(a.record.cases + c.record.cases, a.record.deaths + c.record.deaths)
    ensures DayTotals([a, b, c], DayOf(b)) == Totals(b.record.cases, b.record.deaths)
  {
    ShapeDayList(a, b, c);
    ShapeDayTotals(a, b, c);
  }

  lemma ShapeDayList(a: Dated, b: Dated, c: Dated)
    requires SampleShape(a, b, c)
    ensures DaysOf([a, b, c]) == [DayOf(a), DayOf(b)]
  {
    DaysOfSnoc([], a);
    assert [] + [a] == [a];
    DaysOfSnoc([a], b);
    assert [a] + [b] == [a, b];
    DaysOfSnoc([a, b], c);
    assert [a, b] + [c] == [a, b, c];
  }

  lemma ShapeDayTotals(a: Dated, b: Dated, c: Dated)
    requires SampleShape(a, b, c)
    ensures DayTotals([a, b, c], DayOf(a)) ==
      Totals(a.record.cases + c.record.cases, a.record.deaths + c.record.deaths)
    ensures DayTotals([a, b, c], DayOf(b)) == Totals(b.record.cases, b.record.deaths)
  {
    assert [] + [a] == [a] && [a] + [b] == [a, b] && [a, b] + [c] == [a, b, c];
    DayTotalsAddOwn([], a);
    DayTotalsAddOther([], a, DayOf(b));
    DayTotalsAddOther([a], b, DayOf(a));
    DayTotalsAddOwn([a], b);
    DayTotalsAddOwn([a, b], c);
    DayTotalsAddOther([a, b], c, DayOf(b));
  }

  lemma ShapeCountries(a: Dated, b: Dated, c: Dated)
    requires SampleShape(a, b, c)
    ensures CountriesOf([a, b, c]) == [CountryOf(a), CountryOf(c)]
  {
    CountriesOfSnoc([], a);
    assert [] + [a] == [a];
    CountriesOfSnoc([a], b);
    assert [a] + [b] == [a, b];
    CountriesOfSnoc([a, b], c);
    assert [a, b] + [c] == [a, b, c];
  }

  lemma ShapeOfCountry(a: Dated, b: Dated, c: Dated, country: string)
    ensures OfCountry([a, b, c], country) ==
      (if CountryOf(a) == country then [a] else []) +
      (if CountryOf(b) == country then [b] else []) +
      (if CountryOf(c) == country then [c] else [])
  {
    OfCountrySnoc([], a, country);
    assert [] + [a] == [a];
    OfCountrySnoc([a], b, country);
    assert [a] + [b] == [a, b];
    OfCountrySnoc([a, b], c, country);
    assert [a, b] + [c] == [a, b, c];
  }

  lemma SumOfTwo(a: Dated, b: Dated, c: Count)
    ensures Sum([a, b], c) == CountOf(a, c) + CountOf(b, c)
    ensures Sum([a], c) == CountOf(a, c)
  {
    SumSnoc([], a, c);
    assert [] + [a] == [a];
    SumSnoc([a], b, c);
    assert [a] + [b] == [a, b];
  }

  /** A window containing every record's day keeps them all. */
  lemma WholeWindow(xs: seq<Dated>, range: DateRange)
    requires forall x :: x in xs ==> DayLe(NormalizeDate(range.from).date, DayOf(x)) && DayLe(DayOf(x), NormalizeDate(range.to).date)
    ensures InWindow(xs, range) == xs
  {
    forall x | x in xs
      ensures IsInRange(range)(x)
    {
      InRangeIsDayInterval(x.parsedDate, range.from, range.to);
    }
    FilterKeepsAll(IsInRange(range), xs);
  }

  /** Two points with strictly ascending dates are already in order. */
  lemma TwoPointsInOrder(p: ChartPoint, q: ChartPoint)
    requires LexLess(p.date, q.date)
    ensures SortByDate([p, q]) == [p, q]
  {
    var r := SortByDate([p, q]);
    assert multiset(r) == multiset{p, q};
    assert r[0] in multiset(r) && r[1] in multiset(r);
    if LexLe(q.date, p.date) {
      LexLeAntisymmetric(p.date, q.date);
    }
  }

  /** Two rows whose countries are out of order swap places. */
  lemma TwoRowsSwapped(p: CountryRow, q: CountryRow)
    requires LexLess(q.country, p.country)
    ensures SortByCountry([p, q]) == [q, p]
  {
    var r := SortByCountry([p, q]);
    assert multiset(r) == multiset{p, q};
    assert r[0] in multiset(r) && r[1] in multiset(r);
    if LexLe(p.country, q.country) {
      LexLeAntisymmetric(p.country, q.country);
    }
  }

  /** The points of such records, in order of first appearance. */
  lemma PointsOfShape(a: Dated, b: Dated, c: Dated)
    requires SampleShape(a, b, c)
    ensures PointsOf([a, b, c]) ==
      [ ChartPoint(IsoDate(DayOf(a)), a.record.cases + c.record.cases, a.record.deaths + c.record.deaths),
        ChartPoint(IsoDate(DayOf(b)), b.record.cases, b.record.deaths) ]
  {
    var xs := [a, b, c];
    ShapeDays(a, b, c);
    var points := PointsOf(xs);
    assert |points| == 2;
    assert points[0] == PointOf(xs, DayOf(a));
    assert points[1] == PointOf(xs, DayOf(b));
  }

  /**
   * The series of such records, all in the window and with a's day first:
   * a's day with the counts of a and c, then b's day with those of b.
   */
  lemma SeriesOfShape(a: Dated, b: Dated, c: Dated, range: DateRange)
    requires SampleShape(a, b, c) && DayLess(DayOf(a), DayOf(b))
    requires InWindow([a, b, c], range) == [a, b, c]
    ensures TimeSeries([a, b, c], range, None) ==
      [ ChartPoint(IsoDate(DayOf(a)), a.record.cases + c.record.cases, a.record.deaths + c.record.deaths),
        ChartPoint(IsoDate(DayOf(b)), b.record.cases, b.record.deaths) ]
  {
    NoSelectionKeepsAllCountries([a, b, c], range, None);
    PointsOfShape(a, b, c);
    IsoDateOrder(DayOf(a), DayOf(b));
    IsoDateInjective(DayOf(a), DayOf(b));
    TwoPointsInOrder(
      ChartPoint(IsoDate(DayOf(a)), a.record.cases + c.record.cases, a.record.deaths + c.record.deaths),
      ChartPoint(IsoDate(DayOf(b)), b.record.cases, b.record.deaths));
  }

  lemma TwoDaysList(a: Dated, b: Dated)
    requires DayOf(a) != DayOf(b)
    ensures DaysOf([a, b]) == [DayOf(a), DayOf(b)]
  {
    DaysOfSnoc([], a);
    assert [] + [a] == [a];
    DaysOfSnoc([a], b);
    assert [a] + [b] == [a, b];
  }

  lemma TwoDaysTotals(a: Dated, b: Dated)
    requires DayOf(a) != DayOf(b)
    ensures DayTotals([a, b], DayOf(a)) == Totals(a.record.cases, a.record.deaths)
    ensures DayTotals([a, b], DayOf(b)) == Totals(b.record.cases, b.record.deaths)
  {
    assert [] + [a] == [a] && [a] + [b] == [a, b];
    DayTotalsAddOwn([], a);
    DayTotalsAddOther([], a, DayOf(b));
    DayTotalsAddOther([a], b, DayOf(a));
    DayTotalsAddOwn([a], b);
  }

  /** The points of two records on two days, one a day. */
  lemma PointsOfTwoDays(a: Dated, b: Dated)
    requires DayOf(a) != DayOf(b)
    ensures PointsOf([a, b]) ==
      [ ChartPoint(IsoDate(DayOf(a)), a.record.cases, a.record.deaths),
        ChartPoint(IsoDate(DayOf(b)), b.record.cases, b.record.deaths) ]
  {
    var ys := [a, b];
    TwoDaysList(a, b);
    TwoDaysTotals(a, b);
    var points := PointsOf(ys);
    assert |points| == 2;
    assert points[0] == PointOf(ys, DayOf(a));
    assert points[1] == PointOf(ys, DayOf(b));
  }

  /**
   * The series of such records with a's country selected, all in the window
   * and with a's day first: a's day with a's counts alone, then b's day.
   */
  lemma CountrySeriesOfShape(a: Dated, b: Dated, c: Dated, range: DateRange)
    requires SampleShape(a, b, c) && DayLess(DayOf(a), DayOf(b))
    requires InWindow([a, b, c], range) == [a, b, c]
    requires CountryOf(a) != "" && Trim(CountryOf(a)) == CountryOf(a)
    ensures TimeSeries([a, b, c], range, Some(CountryOf(a))) ==
      [ ChartPoint(IsoDate(DayOf(a)), a.record.cases, a.record.deaths),
        ChartPoint(IsoDate(DayOf(b)), b.record.cases, b.record.deaths) ]
  {
    ShapeOfCountry(a, b, c, CountryOf(a));
    assert [a] + [b] + [] == [a, b];
    assert Contributing([a, b, c], range, Some(CountryOf(a))) == [a, b];
    PointsOfTwoDays(a, b);
    IsoDateOrder(DayOf(a), DayOf(b));
    IsoDateInjective(DayOf(a), DayOf(b));
    TwoPointsInOrder(
      ChartPoint(IsoDate(DayOf(a)), a.record.cases, a.record.deaths),
      ChartPoint(IsoDate(DayOf(b)), b.record.cases, b.record.deaths));
  }

  /** One country's row when all its records lie in the window. */
  lemma RowOfCountry(xs: seq<Dated>, country: string, range: DateRange, mine: seq<Dated>)
    requires OfCountry(xs, country) == mine && InWindow(mine, range) == mine
    ensures
      var row := Finalize(BucketOf(xs, country, range));
      && row.country == country
      && row.casesInPeriod == Sum(mine, Cases) && row.deathsInPeriod == Sum(mine, Deaths)
      && row.population == FirstPopulation(mine)
      && row.casesPer1000 == CalcPerThousand(row.casesInPeriod, row.population)
  {
    RowTotals(xs, country, range);
  }

  /** The rows before filtering: the row of a's country, then that of c's. */
  lemma RowsOfShape(a: Dated, b: Dated, c: Dated, range: DateRange)
    requires SampleShape(a, b, c)
    ensures UnfilteredRows([a, b, c], range) ==
      [Finalize(BucketOf([a, b, c], CountryOf(a), range)), Finalize(BucketOf([a, b, c], CountryOf(c), range))]
  {
    ShapeCountries(a, b, c);
  }

  /** With no query and no active bound both filters keep every row. */
  lemma NoFilterKeepsRows(xs: seq<Dated>, filters: AggregationFilters)
    requires Trim(filters.countryQuery) == ""
    requires !IsActive(filters.numericFilter.min) && !IsActive(filters.numericFilter.max)
    ensures AggregateRows(xs, filters) == SortByCountry(UnfilteredRows(xs, filters.dateRange))
  {
  }

  /**
   * The rows of such records, all in the window, with no query and no active
   * bound, when c's country sorts first: c's row, then the row of a and b,
   * with period totals, all-time totals and first-record population.
   */
  lemma AggregateOfShape(a: Dated, b: Dated, c: Dated, filters: AggregationFilters)
    requires SampleShape(a, b, c) && LexLess(CountryOf(c), CountryOf(a))
    requires InWindow([a, b], filters.dateRange) == [a, b] && InWindow([c], filters.dateRange) == [c]
    requires Trim(filters.countryQuery) == ""
    requires !IsActive(filters.numericFilter.min) && !IsActive(filters.numericFilter.max)
    ensures
      var out := AggregateRows([a, b, c], filters);
      && |out| == 2
      && out[0].country == CountryOf(c)
      && out[0].casesInPeriod == c.record.cases && out[0].deathsInPeriod == c.record.deaths
      && out[0].population == SafePopulation(c.record.popData2019)
      && out[0].casesPer1000 == CalcPerThousand(c.record.cases, out[0].population)
      && out[1].country == CountryOf(a)
      && out[1].casesInPeriod == a.record.cases + b.record.cases
      && out[1].deathsInPeriod == a.record.deaths + b.record.deaths
      && out[1].population == SafePopulation(a.record.popData2019)
      && out[1].casesPer1000 == CalcPerThousand(out[1].casesInPeriod, out[1].population)
  {
    var xs, range := [a, b, c], filters.dateRange;
    ShapeOfCountry(a, b, c, CountryOf(a));
    ShapeOfCountry(a, b, c, CountryOf(c));
    RowOfCountry(xs, CountryOf(a), range, [a, b]);
    RowOfCountry(xs, CountryOf(c), range, [c]);
    SumOfTwo(a, b, Cases);
    SumOfTwo(a, b, Deaths);
    SumOfTwo(c, c, Cases);
    SumOfTwo(c, c, Deaths);
    var p, q := Finalize(BucketOf(xs, CountryOf(a), range)), Finalize(BucketOf(xs, CountryOf(c), range));
    RowsOfShape(a, b, c, range);
    NoFilterKeepsRows(xs, filters);
    TwoRowsSwapped(p, q);
  }

  // ---------------------------------------------------------------------------
  // The sample's values

  const Dec1: Day := Day(2019, 12, 1)
  const Dec2: Day := Day(2019, 12, 2)

  function SampleRecords(): seq<CovidRecord> {
    [ CovidRecord("01/12/2019", 5, 1, "Spain", Some(47000000)),
      CovidRecord("02/12/2019", 7, 0, "Spain", Some(47000000)),
      CovidRecord("01/12/2019", 10, 2, "France", Some(67000000)) ]
  }

  function SampleRange(): DateRange {
    DateRange(Midnight(Dec1), Midnight(Dec2))
  }

  lemma ParseSecondOfDecember()
    ensures ParseApiDate("02/12/2019") == Success(Midnight(Dec2))
  {
    var s := "02/12/2019";
    TrimOfTrimmed(s);
    assert MatchesDatePattern(s) && DateFields(s) == Dec2;
  }

  /** The sample's records with their parsed dates. */
  function SampleDated(): (xs: seq<Dated>)
    ensures |xs| == 3 && SampleShape(xs[0], xs[1], xs[2])
    ensures forall k :: 0 <= k < 3 ==> xs[k].record == SampleRecords()[k]
    ensures DayOf(xs[0]) == Dec1 && DayOf(xs[1]) == Dec2
  {
    var r := SampleRecords();
    [Dated(r[0], Midnight(Dec1)), Dated(r[1], Midnight(Dec2)), Dated(r[2], Midnight(Dec1))]
  }

  /** Each sample record's date parses, to the day it names. */
  lemma SampleRecordParses(k: int)
    requires 0 <= k < 3
    ensures ParseRecord(SampleRecords()[k]) == Success(SampleDated()[k])
  {
    if k == 1 {
      ParseSecondOfDecember();
    } else {
      ExampleParseAccepted();
    }
  }

  /** Every sample date parses, to the day it names. */
  lemma SampleParses()
    ensures MapResult(ParseRecord, SampleRecords()) == Success(SampleDated())
  {
    var r, d := SampleRecords(), SampleDated();
    SampleRecordParses(0);
    SampleRecordParses(1);
    SampleRecordParses(2);
    MapResultSingleton(ParseRecord, r[0]);
    MapResultSingleton(ParseRecord, r[1]);
    MapResultSingleton(ParseRecord, r[2]);
    MapResultAppendSucceeds(ParseRecord, [r[1]], [r[2]]);
    assert [r[1]] + [r[2]] == [r[1], r[2]];
    MapResultAppendSucceeds(ParseRecord, [r[0]], [r[1], r[2]]);
    assert [r[0]] + [r[1], r[2]] == r;
    assert [d[0]] + ([d[1]] + [d[2]]) == d;
  }

  lemma SampleWholeWindow()
    ensures InWindow(SampleDated(), SampleRange()) == SampleDated()
  {
    WholeWindow(SampleDated(), SampleRange());
  }

  lemma SampleIsoDates()
    ensures IsoDate(Dec1) == "2019-12-01" && IsoDate(Dec2) == "2019-12-02"
  {
    DigitsOfDigits4('2', '0', '1', '9');
    DigitsOfDigits2('1', '2');
    DigitsOfDigits2('0', '1');
    DigitsOfDigits2('0', '2');
  }

  /** All countries: 2019-12-01 with 15 cases and 3 deaths, then 2019-12-02 with 7 and 0. */
  lemma ExampleSeriesAllCountries()
    ensures MapResult(ParseRecord, SampleRecords()) == Success(SampleDated())
    ensures TimeSeries(SampleDated(), SampleRange(), None) ==
      [ChartPoint("2019-12-01", 15, 3), ChartPoint("2019-12-02", 7, 0)]
  {
    SampleParses();
    var xs := SampleDated();
    SampleWholeWindow();
    assert xs == [xs[0], xs[1], xs[2]];
    SeriesOfShape(xs[0], xs[1], xs[2], SampleRange());
    SampleIsoDates();
  }

  /** Spain only: 2019-12-01 with 5 cases and 1 death, then 2019-12-02 with 7 and 0. */
  lemma ExampleSeriesSpain()
    ensures TimeSeries(SampleDated(), SampleRange(), Some("Spain")) ==
      [ChartPoint("2019-12-01", 5, 1), ChartPoint("2019-12-02", 7, 0)]
  {
    var xs := SampleDated();
    SampleWholeWindow();
    assert xs == [xs[0], xs[1], xs[2]];
    TrimOfTrimmed("Spain");
    CountrySeriesOfShape(xs[0], xs[1], xs[2], SampleRange());
    SampleIsoDates();
  }

  lemma SamplePerThousand()
    ensures CalcPerThousand(10, 67000000) == 10.0 / 67000.0
    ensures CalcPerThousand(12, 47000000) == 12.0 / 47000.0
  {
  }

  /** The rows: France with 10 cases and 2 deaths, then Spain with 12 and 1. */
  lemma ExampleAggregate(xs: seq<Dated>, filters: AggregationFilters)
    requires xs == SampleDated()
    requires filters == AggregationFilters(SampleRange(), "", NumericFilter(CasesField, None, None))
    ensures
      var out := AggregateRows(xs, filters);
      && |out| == 2
      && out[0].country == "France" && out[0].casesInPeriod == 10 && out[0].deathsInPeriod == 2
      && out[0].casesPer1000 == 10.0 / 67000.0
      && out[1].country == "Spain" && out[1].casesInPeriod == 12 && out[1].deathsInPeriod == 1
      && out[1].casesPer1000 == 12.0 / 47000.0
  {
    var range := SampleRange();
    var a, b, c := xs[0], xs[1], xs[2];
    assert xs == [a, b, c];
    WholeWindow([a, b], range);
    WholeWindow([c], range);
    TrimOfTrimmed("");
    assert LexLess("France", "Spain");
    AggregateOfShape(a, b, c, filters);
    SamplePerThousand();
  }
}
