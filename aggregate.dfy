/**
 * `aggregateByCountry` (src/utils/aggregate.ts): one pass over the records
 * into a per-country map of accumulators, their finalisation into table rows
 * with per-1000 rates and per-day averages and peaks, then the country-name
 * filter, the numeric min/max filter and the sort by country.
 *
 * The pass is a method whose loop keeps every accumulator equal to
 * `BucketOf`, the accumulator stated field by field from the records seen so
 * far; the lemmas below say what the finished rows and the filters mean.
 */
module Aggregate {
  import opened Wrappers
  import opened Strings
  import opened Sorting
  import opened Sequences
  import opened Calendar
  import opened Records

  // ---------------------------------------------------------------------------
  // Population and rates

  /** `safePopulation`: the reported population when it is a positive number, else 0. */
  function SafePopulation(popData2019: Option<int>): (r: int)
    ensures r >= 0
    ensures r > 0 ==> popData2019 == Some(r)
    ensures popData2019.Some? && popData2019.value > 0 ==> r == popData2019.value
  {
    match popData2019
    case Some(p) => if p > 0 then p else 0
    case None => 0
  }

  /** `calcPerThousand`: `value` per 1000 inhabitants, or 0 without a population. */
  function CalcPerThousand(value: int, population: int): (r: real)
    ensures population <= 0 ==> r == 0.0
    ensures population > 0 ==> r * population as real == value as real * 1000.0
  {
    if population <= 0 then 0.0
    else
      var thousands := population as real / 1000.0;
      var r := value as real / thousands;
      assert population as real == thousands * 1000.0;
      assert r * thousands == value as real;
      r
  }

  /** A period total spread over `daysCount` days, or 0 when there are none. */
  function Average(total: int, daysCount: int): (r: real)
    ensures daysCount > 0 ==> r * daysCount as real == total as real
    ensures daysCount <= 0 ==> r == 0.0
  {
    if daysCount > 0 then total as real / daysCount as real else 0.0
  }

  /** `Math.max(...s)` on a non-empty list: an element no other element exceeds. */
  function MaxOf(s: seq<int>): (m: int)
    requires s != []
    ensures m in s
    ensures forall v :: v in s ==> v <= m
  {
    if |s| == 1 then s[0]
    else
      var rest := MaxOf(s[1..]);
      assert s == [s[0]] + s[1..];
      if s[0] >= rest then s[0] else rest
  }

  // ---------------------------------------------------------------------------
  // Accumulators

  /**
   * `MutableCountryAggregate`. The daily maps are keyed by the day a
   * `YYYY-MM-DD` key names, and `days` lists their keys in the order they
   * were inserted, which is the iteration order of both maps.
   */
  datatype Accumulator = Accumulator(
    country: string,
    population: int,
    casesInPeriod: int,
    deathsInPeriod: int,
    casesTotalAllTime: int,
    deathsTotalAllTime: int,
    dailyCases: map<Day, int>,
    dailyDeaths: map<Day, int>,
    days: seq<Day>)

  /** The accumulator created on a country's first record. */
  function NewAccumulator(country: string, population: int): Accumulator {
    Accumulator(country, population, 0, 0, 0, 0, map[], map[], [])
  }

  /** `m.get(day) ?? 0`. */
  function GetOrZero(m: map<Day, int>, day: Day): int {
    if day in m then m[day] else 0
  }

  /** A record's counts added to the all-time totals. */
  function AddTotals(acc: Accumulator, record: CovidRecord): Accumulator {
    Accumulator(
      acc.country, acc.population,
      acc.casesInPeriod, acc.deathsInPeriod,
      acc.casesTotalAllTime + record.cases, acc.deathsTotalAllTime + record.deaths,
      acc.dailyCases, acc.dailyDeaths, acc.days)
  }

  /**
   * An in-window record's counts added to the period totals and to the entries
   * of its day, which joins the end of `days` the first time it is set.
   */
  function AddToDay(acc: Accumulator, day: Day, record: CovidRecord): Accumulator {
    Accumulator(
      acc.country, acc.population,
      acc.casesInPeriod + record.cases, acc.deathsInPeriod + record.deaths,
      acc.casesTotalAllTime, acc.deathsTotalAllTime,
      acc.dailyCases[day := GetOrZero(acc.dailyCases, day) + record.cases],
      acc.dailyDeaths[day := GetOrZero(acc.dailyDeaths, day) + record.deaths],
      if day in acc.dailyCases then acc.days else acc.days + [day])
  }

  /**
   * What one record does to its country's accumulator: add to the all-time
   * totals, and when its date is in the window, to the period totals and to
   * its day's entries.
   */
  function AddRecord(acc: Accumulator, x: Dated, range: DateRange): Accumulator {
    var totals := AddTotals(acc, x.record);
    if InRange(range, x) then AddToDay(totals, DayOf(x), x.record) else totals
  }

  /** The population recorded for a country: that of its first record. */
  function FirstPopulation(mine: seq<Dated>): int {
    if mine == [] then 0 else SafePopulation(mine[0].record.popData2019)
  }

  /**
   * The per-day map of one count, built record by record as the daily maps
   * are: each record adds its count to its day's entry, absent days counting 0.
   */
  function DailySums(xs: seq<Dated>, c: Count): map<Day, int> {
    if xs == [] then map[]
    else
      var m := DailySums(xs[..|xs| - 1], c);
      var x := xs[|xs| - 1];
      m[DayOf(x) := GetOrZero(m, DayOf(x)) + CountOf(x, c)]
  }

  lemma DailySumsAddRecord(xs: seq<Dated>, x: Dated, c: Count)
    ensures DailySums(xs + [x], c) ==
      DailySums(xs, c)[DayOf(x) := GetOrZero(DailySums(xs, c), DayOf(x)) + CountOf(x, c)]
  {
    assert (xs + [x])[..|xs|] == xs;
  }

  /** A day has an entry in the daily map exactly when it is listed. */
  lemma {:induction false} DailySumsHasDay(xs: seq<Dated>, c: Count, day: Day)
    ensures day in DailySums(xs, c) <==> day in DaysOf(xs)
  {
    if xs != [] {
      var init, last := xs[..|xs| - 1], xs[|xs| - 1];
      assert xs == init + [last];
      DailySumsHasDay(init, c, day);
      DailySumsAddRecord(init, last, c);
      DaysOfSnocMember(init, last, day);
    }
  }

  /** A day's entry in the daily map is that day's sum. */
  lemma {:induction false} DailySumsAt(xs: seq<Dated>, c: Count, day: Day)
    requires day in DailySums(xs, c)
    ensures DailySums(xs, c)[day] == Sum(OnDay(xs, day), c)
  {
    var init, last := xs[..|xs| - 1], xs[|xs| - 1];
    assert xs == init + [last];
    var m := DailySums(init, c);
    DailySumsAddRecord(init, last, c);
    OnDaySnoc(init, last, day);
    if day == DayOf(last) {
      SumSnoc(OnDay(init, day), last, c);
      if day in m {
        DailySumsAt(init, c, day);
      } else {
        DailySumsHasDay(init, c, day);
        UnlistedDayIsEmpty(init, day);
      }
    } else {
      assert OnDay(xs, day) == OnDay(init, day) + [] == OnDay(init, day);
      assert DailySums(xs, c)[day] == m[day];
      DailySumsAt(init, c, day);
    }
  }

  /** The daily map has an entry for exactly the listed days, holding that day's sum. */
  lemma DailySumsSpec(xs: seq<Dated>, c: Count)
    ensures forall day :: day in DailySums(xs, c) <==> day in DaysOf(xs)
    ensures forall day :: day in DailySums(xs, c) ==> DailySums(xs, c)[day] == Sum(OnDay(xs, day), c)
  {
    forall day
      ensures day in DailySums(xs, c) <==> day in DaysOf(xs)
      ensures day in DailySums(xs, c) ==> DailySums(xs, c)[day] == Sum(OnDay(xs, day), c)
    {
      DailySumsHasDay(xs, c, day);
      if day in DailySums(xs, c) {
        DailySumsAt(xs, c, day);
      }
    }
  }

  /**
   * The accumulator of `country` after the records `xs`, field by field: the
   * population of its first record, the sums over its in-window records, the
   * sums over all its records, and the per-day sums of its in-window records.
   */
  function BucketOf(xs: seq<Dated>, country: string, range: DateRange): Accumulator {
    BucketFrom(OfCountry(xs, country), country, range)
  }

  /** The accumulator stated from the country's own records `mine`. */
  function BucketFrom(mine: seq<Dated>, country: string, range: DateRange): Accumulator {
    var inRange := InWindow(mine, range);
    Accumulator(
      country, FirstPopulation(mine),
      Sum(inRange, Cases), Sum(inRange, Deaths),
      Sum(mine, Cases), Sum(mine, Deaths),
      DailySums(inRange, Cases), DailySums(inRange, Deaths),
      DaysOf(inRange))
  }

  /** A record leaves the accumulators of the other countries alone. */
  lemma OtherBucketsUnchanged(xs: seq<Dated>, x: Dated, country: string, range: DateRange)
    requires country != CountryOf(x)
    ensures BucketOf(xs + [x], country, range) == BucketOf(xs, country, range)
  {
    OfCountrySnoc(xs, x, country);
    assert OfCountry(xs, country) + [] == OfCountry(xs, country);
  }

  /** A country's first record: a fresh accumulator with that record's population, plus the record. */
  lemma FirstRecordOfCountry(x: Dated, range: DateRange)
    ensures BucketFrom([x], CountryOf(x), range) ==
      AddRecord(NewAccumulator(CountryOf(x), SafePopulation(x.record.popData2019)), x, range)
  {
    if InRange(range, x) {
      FirstRecordInWindow(x, range);
    } else {
      FirstRecordOutOfWindow(x, range);
    }
  }

  /** `FirstRecordOfCountry` for a record inside the window. */
  lemma FirstRecordInWindow(x: Dated, range: DateRange)
    requires InRange(range, x)
    ensures BucketFrom([x], CountryOf(x), range) ==
      AddRecord(NewAccumulator(CountryOf(x), SafePopulation(x.record.popData2019)), x, range)
  {
    InWindowSnoc([], x, range);
    assert [] + [x] == [x];
    assert InWindow([x], range) == [x];
    SumSnoc([], x, Cases);
    SumSnoc([], x, Deaths);
    DaysOfSnoc([], x);
    DailySumsAddRecord([], x, Cases);
    DailySumsAddRecord([], x, Deaths);
  }

  /** `FirstRecordOfCountry` for a record outside the window. */
  lemma FirstRecordOutOfWindow(x: Dated, range: DateRange)
    requires !InRange(range, x)
    ensures BucketFrom([x], CountryOf(x), range) ==
      AddRecord(NewAccumulator(CountryOf(x), SafePopulation(x.record.popData2019)), x, range)
  {
    InWindowSnoc([], x, range);
    assert [] + [x] == [x];
    assert InWindow([x], range) == [];
    SumSnoc([], x, Cases);
    SumSnoc([], x, Deaths);
  }

  /**
   * The per-day maps of an accumulator that hold the sums over `w` hold,
   * after an in-window record, the sums over `w + [x]`.
   */
  lemma AddRecordDaily(acc: Accumulator, x: Dated, range: DateRange, w: seq<Dated>)
    requires InRange(range, x)
    requires acc.dailyCases == DailySums(w, Cases) && acc.dailyDeaths == DailySums(w, Deaths)
    ensures AddRecord(acc, x, range).dailyCases == DailySums(w + [x], Cases)
    ensures AddRecord(acc, x, range).dailyDeaths == DailySums(w + [x], Deaths)
  {
    DailySumsAddRecord(w, x, Cases);
    DailySumsAddRecord(w, x, Deaths);
  }

  /** A further record of a country: its accumulator plus the record. */
  lemma LaterRecordOfCountry(mine: seq<Dated>, x: Dated, range: DateRange)
    requires mine != []
    ensures BucketFrom(mine + [x], CountryOf(x), range) ==
      AddRecord(BucketFrom(mine, CountryOf(x), range), x, range)
  {
    if InRange(range, x) {
      LaterRecordInWindow(mine, x, range);
    } else {
      LaterRecordOutOfWindow(mine, x, range);
    }
  }

  /** A further in-window record adds to every total, to its day's sums and, if new, to the days. */
  lemma LaterRecordInWindow(mine: seq<Dated>, x: Dated, range: DateRange)
    requires mine != [] && InRange(range, x)
    ensures BucketFrom(mine + [x], CountryOf(x), range) ==
      AddRecord(BucketFrom(mine, CountryOf(x), range), x, range)
  {
    var w := InWindow(mine, range);
    InWindowSnoc(mine, x, range);
    assert InWindow(mine + [x], range) == w + [x];
    assert (mine + [x])[0] == mine[0];
    SumSnoc(mine, x, Cases);
    SumSnoc(mine, x, Deaths);
    SumSnoc(w, x, Cases);
    SumSnoc(w, x, Deaths);
    DaysOfSnoc(w, x);
    DailySumsHasDay(w, Cases, DayOf(x));
    AddRecordDaily(BucketFrom(mine, CountryOf(x), range), x, range, w);
  }

  /** A further record outside the window adds to the all-time totals only. */
  lemma LaterRecordOutOfWindow(mine: seq<Dated>, x: Dated, range: DateRange)
    requires mine != [] && !InRange(range, x)
    ensures BucketFrom(mine + [x], CountryOf(x), range) ==
      AddRecord(BucketFrom(mine, CountryOf(x), range), x, range)
  {
    InWindowSnoc(mine, x, range);
    assert InWindow(mine + [x], range) == InWindow(mine, range);
    assert (mine + [x])[0] == mine[0];
    SumSnoc(mine, x, Cases);
    SumSnoc(mine, x, Deaths);
  }

  /**
   * A record updates its own country's accumulator as `AddRecord` says, the
   * country's first record starting from a fresh accumulator.
   */
  lemma OwnBucketAddsRecord(xs: seq<Dated>, x: Dated, range: DateRange)
    ensures BucketOf(xs + [x], CountryOf(x), range) ==
      AddRecord(
        if CountryOf(x) in CountriesOf(xs) then BucketOf(xs, CountryOf(x), range)
        else NewAccumulator(CountryOf(x), SafePopulation(x.record.popData2019)),
        x, range)
  {
    var mine := OfCountry(xs, CountryOf(x));
    OfCountrySnoc(xs, x, CountryOf(x));
    CountriesOfSpec(xs);
    if mine == [] {
      assert mine + [x] == [x];
      FirstRecordOfCountry(x, range);
    } else {
      LaterRecordOfCountry(mine, x, range);
    }
  }

  // ---------------------------------------------------------------------------
  // Rows

  /** A finished row, as `aggregateByCountry` builds it. */
  datatype CountryRow = CountryRow(
    country: string,
    casesInPeriod: int,
    deathsInPeriod: int,
    casesTotalAllTime: int,
    deathsTotalAllTime: int,
    population: int,
    casesPer1000: real,
    deathsPer1000: real,
    avgCasesPerDay: real,
    avgDeathsPerDay: real,
    maxCasesPerDay: int,
    maxDeathsPerDay: int)

  /**
   * `Array.from(dayKeys).sort()`: the days in chronological order, the order
   * their `YYYY-MM-DD` keys sort in (`Calendar.IsoDateOrder`).
   */
  function SortedDays(days: seq<Day>): (r: seq<Day>)
    ensures multiset(r) == multiset(days)
    ensures Sorted(r, DayLe)
  {
    DayLeIsTotalPreorder();
    InsertionSort(days, DayLe)
  }

  /** `days.map((day) => daily.get(day) ?? 0)`. */
  function PerDay(days: seq<Day>, daily: map<Day, int>): (r: seq<int>)
    ensures |r| == |days|
    ensures forall k :: 0 <= k < |days| ==> r[k] == GetOrZero(daily, days[k])
  {
    seq(|days|, k requires 0 <= k < |days| => GetOrZero(daily, days[k]))
  }

  /** The row built from one accumulator. */
  function Finalize(agg: Accumulator): CountryRow {
    var sortedDays := SortedDays(agg.days);
    var casesPerDay := PerDay(sortedDays, agg.dailyCases);
    var deathsPerDay := PerDay(sortedDays, agg.dailyDeaths);
    var daysCount := |agg.days|;
    assert |sortedDays| == daysCount by {
      assert |multiset(sortedDays)| == |multiset(agg.days)|;
    }
    CountryRow(
      agg.country,
      agg.casesInPeriod,
      agg.deathsInPeriod,
      agg.casesTotalAllTime,
      agg.deathsTotalAllTime,
      agg.population,
      CalcPerThousand(agg.casesInPeriod, agg.population),
      CalcPerThousand(agg.deathsInPeriod, agg.population),
      Average(agg.casesInPeriod, daysCount),
      Average(agg.deathsInPeriod, daysCount),
      if daysCount > 0 then MaxOf(casesPerDay) else 0,
      if daysCount > 0 then MaxOf(deathsPerDay) else 0)
  }

  /** The rows before filtering: one per country, in order of first appearance. */
  function UnfilteredRows(xs: seq<Dated>, range: DateRange): seq<CountryRow> {
    var countries := CountriesOf(xs);
    seq(|countries|, k requires 0 <= k < |countries| => Finalize(BucketOf(xs, countries[k], range)))
  }

  /** `m` is the largest per-day sum of count `c` over the listed days, and is one of them. */
  ghost predicate IsPeak(m: int, days: seq<Day>, xs: seq<Dated>, c: Count) {
    && (exists day :: day in days && m == Sum(OnDay(xs, day), c))
    && (forall day :: day in days ==> Sum(OnDay(xs, day), c) <= m)
  }

  /** The peak of a country's per-day sums, read back through the sorted day list. */
  lemma PeakOfDailySums(inRange: seq<Dated>, c: Count)
    requires DaysOf(inRange) != []
    ensures IsPeak(MaxOf(PerDay(SortedDays(DaysOf(inRange)), DailySums(inRange, c))), DaysOf(inRange), inRange, c)
  {
    var days := DaysOf(inRange);
    var sortedDays := SortedDays(days);
    var daily := DailySums(inRange, c);
    var perDay := PerDay(sortedDays, daily);
    DailySumsSpec(inRange, c);
    assert |sortedDays| == |days| by {
      assert |multiset(sortedDays)| == |multiset(days)|;
    }
    assert forall day :: day in sortedDays <==> day in days by {
      forall day
        ensures day in sortedDays <==> day in days
      {
        assert day in sortedDays <==> day in multiset(sortedDays);
        assert day in days <==> day in multiset(days);
      }
    }
    var m := MaxOf(perDay);
    var j :| 0 <= j < |perDay| && perDay[j] == m;
    assert sortedDays[j] in days && m == Sum(OnDay(inRange, sortedDays[j]), c);
    forall day | day in days
      ensures Sum(OnDay(inRange, day), c) <= m
    {
      var k :| 0 <= k < |sortedDays| && sortedDays[k] == day;
      assert perDay[k] in perDay;
    }
  }

  /**
   * A country's row: the country, all-time totals over all its records,
   * period totals over its in-window records, the population of its first
   * record, and per-1000 rates of the period totals.
   */
  lemma RowTotals(xs: seq<Dated>, country: string, range: DateRange)
    ensures
      var row := Finalize(BucketOf(xs, country, range));
      var mine := OfCountry(xs, country);
      var inRange := InWindow(mine, range);
      && row.country == country
      && row.casesTotalAllTime == Sum(mine, Cases)
      && row.deathsTotalAllTime == Sum(mine, Deaths)
      && row.casesInPeriod == Sum(inRange, Cases)
      && row.deathsInPeriod == Sum(inRange, Deaths)
      && row.population == FirstPopulation(mine)
      && row.casesPer1000 == CalcPerThousand(row.casesInPeriod, row.population)
      && row.deathsPer1000 == CalcPerThousand(row.deathsInPeriod, row.population)
  {
  }

  /**
   * A country's daily averages: the period totals spread over its distinct
   * in-window days (`Average`), whose per-day sums add up to those totals.
   */
  lemma RowAverages(xs: seq<Dated>, country: string, range: DateRange)
    ensures
      var row := Finalize(BucketOf(xs, country, range));
      var inRange := InWindow(OfCountry(xs, country), range);
      var days := DaysOf(inRange);
      && SumByDay(days, inRange, Cases) == row.casesInPeriod
      && SumByDay(days, inRange, Deaths) == row.deathsInPeriod
      && row.avgCasesPerDay == Average(row.casesInPeriod, |days|)
      && row.avgDeathsPerDay == Average(row.deathsInPeriod, |days|)
  {
    var inRange := InWindow(OfCountry(xs, country), range);
    PerDaySumsAddUp(inRange, Cases);
    PerDaySumsAddUp(inRange, Deaths);
  }

  /**
   * A country's daily peaks: the largest per-day sum over its distinct
   * in-window days, and one of them; 0 without any.
   */
  lemma RowPeaks(xs: seq<Dated>, country: string, range: DateRange)
    ensures
      var row := Finalize(BucketOf(xs, country, range));
      var inRange := InWindow(OfCountry(xs, country), range);
      var days := DaysOf(inRange);
      && (days == [] ==> row.maxCasesPerDay == 0 && row.maxDeathsPerDay == 0)
      && (days != [] ==>
            && IsPeak(row.maxCasesPerDay, days, inRange, Cases)
            && IsPeak(row.maxDeathsPerDay, days, inRange, Deaths))
  {
    var inRange := InWindow(OfCountry(xs, country), range);
    if DaysOf(inRange) != [] {
      PeakOfDailySums(inRange, Cases);
      PeakOfDailySums(inRange, Deaths);
    }
  }

  /** Before filtering there is exactly one row per distinct country name, and none without records. */
  lemma {:induction false} UnfilteredRowsPerCountry(xs: seq<Dated>, range: DateRange)
    ensures
      var rows := UnfilteredRows(xs, range);
      && (forall i, j :: 0 <= i < j < |rows| ==> rows[i].country != rows[j].country)
      && (forall country ::
            (exists k :: 0 <= k < |rows| && rows[k].country == country) <==> OfCountry(xs, country) != [])
      && (forall k :: 0 <= k < |rows| ==>
            rows[k] == Finalize(BucketOf(xs, rows[k].country, range)))
  {
    var rows := UnfilteredRows(xs, range);
    var countries := CountriesOf(xs);
    CountriesOfSpec(xs);
    assert forall k :: 0 <= k < |rows| ==> rows[k].country == countries[k];
    forall country
      ensures (exists k :: 0 <= k < |rows| && rows[k].country == country) <==> OfCountry(xs, country) != []
    {
      if country in countries {
        var k :| 0 <= k < |countries| && countries[k] == country;
        assert rows[k].country == country;
      }
    }
  }

  /** One count's period column, as a function for summing over rows. */
  function PeriodCount(c: Count): CountryRow -> int {
    (row: CountryRow) => match c case Cases => row.casesInPeriod case Deaths => row.deathsInPeriod
  }

  /** One count's all-time column, as a function for summing over rows. */
  function AllTimeCount(c: Count): CountryRow -> int {
    (row: CountryRow) => match c case Cases => row.casesTotalAllTime case Deaths => row.deathsTotalAllTime
  }

  /** A country's in-window records are the in-window records of that country. */
  lemma WindowOfCountry(xs: seq<Dated>, country: string, range: DateRange)
    ensures InWindow(OfCountry(xs, country), range) == OfCountry(InWindow(xs, range), country)
  {
    FilterCommutes(IsInRange(range), IsOfCountry(country), xs);
  }

  /** The rows of the listed countries add up, column by column, to the per-country sums. */
  lemma {:induction false} RowsOfCountriesAddUp(
    xs: seq<Dated>, countries: seq<string>, range: DateRange, c: Count, rows: seq<CountryRow>)
    requires |rows| == |countries|
    requires forall k :: 0 <= k < |rows| ==> rows[k] == Finalize(BucketOf(xs, countries[k], range))
    ensures SumOf(AllTimeCount(c), rows) == SumByCountry(countries, xs, c)
    ensures SumOf(PeriodCount(c), rows) == SumByCountry(countries, InWindow(xs, range), c)
  {
    if rows != [] {
      var n := |rows| - 1;
      RowsOfCountriesAddUp(xs, countries[..n], range, c, rows[..n]);
      WindowOfCountry(xs, countries[n], range);
    }
  }

  /**
   * Summed over the rows before filtering, the all-time totals are those of
   * all records and the period totals those of the records in the window:
   * each record is counted in exactly one row.
   */
  lemma RowSumsAddUp(xs: seq<Dated>, range: DateRange, c: Count)
    ensures SumOf(AllTimeCount(c), UnfilteredRows(xs, range)) == Sum(xs, c)
    ensures SumOf(PeriodCount(c), UnfilteredRows(xs, range)) == Sum(InWindow(xs, range), c)
  {
    var countries := CountriesOf(xs);
    CountriesOfSpec(xs);
    RowsOfCountriesAddUp(xs, countries, range, c, UnfilteredRows(xs, range));
    forall x | x in xs
      ensures CountryOf(x) in countries
    {
      OfCountrySpec(xs, CountryOf(x));
      assert x in OfCountry(xs, CountryOf(x));
    }
    InWindowSpec(xs, range);
    PerCountrySumsAddUp(countries, xs, c);
    PerCountrySumsAddUp(countries, InWindow(xs, range), c);
  }

  /**
   * When every record lies in the window, each row's period totals are its
   * all-time totals, and summed over the rows both come to the totals of all
   * records.
   */
  lemma WholeWindowRows(xs: seq<Dated>, range: DateRange)
    requires forall x :: x in xs ==> InRange(range, x)
    ensures forall row :: row in UnfilteredRows(xs, range) ==>
      row.casesInPeriod == row.casesTotalAllTime && row.deathsInPeriod == row.deathsTotalAllTime
    ensures SumOf(PeriodCount(Cases), UnfilteredRows(xs, range)) == Sum(xs, Cases)
    ensures SumOf(AllTimeCount(Cases), UnfilteredRows(xs, range)) == Sum(xs, Cases)
    ensures SumOf(PeriodCount(Deaths), UnfilteredRows(xs, range)) == Sum(xs, Deaths)
    ensures SumOf(AllTimeCount(Deaths), UnfilteredRows(xs, range)) == Sum(xs, Deaths)
  {
    var rows := UnfilteredRows(xs, range);
    UnfilteredRowsPerCountry(xs, range);
    forall row | row in rows
      ensures row.casesInPeriod == row.casesTotalAllTime && row.deathsInPeriod == row.deathsTotalAllTime
    {
      var mine := OfCountry(xs, row.country);
      OfCountrySpec(xs, row.country);
      FilterKeepsAll(IsInRange(range), mine);
      RowTotals(xs, row.country, range);
    }
    FilterKeepsAll(IsInRange(range), xs);
    RowSumsAddUp(xs, range, Cases);
    RowSumsAddUp(xs, range, Deaths);
  }

  // ---------------------------------------------------------------------------
  // Filters and sort

  /** The case-insensitive substring test for a lower-cased query. */
  function QueryMatcher(q: string): CountryRow -> bool {
    (row: CountryRow) => Includes(ToLower(row.country), q)
  }

  /** The country filter: rows whose lower-cased name contains the trimmed, lower-cased query. */
  function FilterByCountry(rows: seq<CountryRow>, countryQuery: string): seq<CountryRow> {
    var query := Trim(countryQuery);
    if query == "" then rows else Filter(QueryMatcher(ToLower(query)), rows)
  }

  /** A row passes the country filter: a blank query or a case-insensitive substring match. */
  predicate MatchesCountryQuery(row: CountryRow, countryQuery: string) {
    Trim(countryQuery) == "" || Includes(ToLower(row.country), ToLower(Trim(countryQuery)))
  }

  lemma CountryFilterSpec(rows: seq<CountryRow>, countryQuery: string)
    ensures Trim(countryQuery) == "" ==> FilterByCountry(rows, countryQuery) == rows
    ensures forall row ::
      row in FilterByCountry(rows, countryQuery) <==> row in rows && MatchesCountryQuery(row, countryQuery)
    ensures multiset(FilterByCountry(rows, countryQuery)) <= multiset(rows)
  {
    var query := Trim(countryQuery);
    if query != "" {
      FilterSpec(QueryMatcher(ToLower(query)), rows);
    }
  }

  /** The numeric field a filter applies to, and the row field it reads (`numericKey`). */
  datatype NumericField = CasesField | DeathsField | CasesPer1000Field | DeathsPer1000Field

  function FieldValue(row: CountryRow, field: NumericField): real {
    match field
    case CasesField => row.casesInPeriod as real
    case DeathsField => row.deathsInPeriod as real
    case CasesPer1000Field => row.casesPer1000
    case DeathsPer1000Field => row.deathsPer1000
  }

  /** A JavaScript number as `Number` may produce it from a bound's text. */
  datatype JsNumber = NaN | PosInfinity | NegInfinity | Finite(value: real)

  /**
   * `numericFilter`: a bound is `None` when its text is blank, otherwise the
   * number the text converts to.
   */
  datatype NumericFilter = NumericFilter(field: NumericField, min: Option<JsNumber>, max: Option<JsNumber>)

  /** `hasValidMin` / `hasValidMax`: present and not NaN. */
  predicate IsActive(bound: Option<JsNumber>) {
    bound.Some? && !bound.value.NaN?
  }

  /** JavaScript's `v < bound`. */
  predicate Below(v: real, bound: JsNumber) {
    match bound
    case NaN => false
    case PosInfinity => true
    case NegInfinity => false
    case Finite(b) => v < b
  }

  /** JavaScript's `v > bound`. */
  predicate Above(v: real, bound: JsNumber) {
    match bound
    case NaN => false
    case PosInfinity => false
    case NegInfinity => true
    case Finite(b) => v > b
  }

  /** The predicate of the numeric `rows.filter`. */
  function BoundsCheck(nf: NumericFilter): CountryRow -> bool {
    var hasValidMin, hasValidMax := IsActive(nf.min), IsActive(nf.max);
    (row: CountryRow) =>
      && !(hasValidMin && Below(FieldValue(row, nf.field), nf.min.value))
      && !(hasValidMax && Above(FieldValue(row, nf.field), nf.max.value))
  }

  /** The numeric filter, applied only when some bound is active. */
  function FilterByField(rows: seq<CountryRow>, nf: NumericFilter): seq<CountryRow> {
    if IsActive(nf.min) || IsActive(nf.max) then Filter(BoundsCheck(nf), rows) else rows
  }

  /** `min <= v` in the extended reals. */
  predicate AtLeast(v: real, min: JsNumber) {
    match min
    case Finite(b) => b <= v
    case NegInfinity => true
    case _ => false
  }

  /** `v <= max` in the extended reals. */
  predicate AtMost(v: real, max: JsNumber) {
    match max
    case Finite(b) => v <= b
    case PosInfinity => true
    case _ => false
  }

  /** `v` satisfies every active bound. */
  predicate WithinBounds(v: real, nf: NumericFilter) {
    && (IsActive(nf.min) ==> AtLeast(v, nf.min.value))
    && (IsActive(nf.max) ==> AtMost(v, nf.max.value))
  }

  lemma FieldFilterSpec(rows: seq<CountryRow>, nf: NumericFilter)
    ensures !IsActive(nf.min) && !IsActive(nf.max) ==> FilterByField(rows, nf) == rows
    ensures forall row ::
      row in FilterByField(rows, nf) <==> row in rows && WithinBounds(FieldValue(row, nf.field), nf)
    ensures multiset(FilterByField(rows, nf)) <= multiset(rows)
  {
    if IsActive(nf.min) || IsActive(nf.max) {
      FilterSpec(BoundsCheck(nf), rows);
    }
  }

  /** `a.country.localeCompare(b.country) <= 0`. */
  predicate CountryLe(a: CountryRow, b: CountryRow) {
    LexLe(a.country, b.country)
  }

  lemma CountryLeIsTotalPreorder()
    ensures IsTotalPreorder(CountryLe)
  {
    forall a, b
      ensures CountryLe(a, b) || CountryLe(b, a)
    {
      LexLeTotal(a.country, b.country);
    }
    forall a, b, c | CountryLe(a, b) && CountryLe(b, c)
      ensures CountryLe(a, c)
    {
      LexLeTransitive(a.country, b.country, c.country);
    }
  }

  /** `rows.sort` by country name: a permutation of the rows, ascending by country. */
  function SortByCountry(rows: seq<CountryRow>): (r: seq<CountryRow>)
    ensures multiset(r) == multiset(rows)
    ensures forall i, j :: 0 <= i < j < |r| ==> LexLe(r[i].country, r[j].country)
  {
    CountryLeIsTotalPreorder();
    var r := InsertionSort(rows, CountryLe);
    assert forall i, j :: 0 <= i < j < |r| ==> CountryLe(r[i], r[j]);
    r
  }

  /** `filters`: the date window, the country query and the numeric filter. */
  datatype AggregationFilters = AggregationFilters(
    dateRange: DateRange,
    countryQuery: string,
    numericFilter: NumericFilter)

  /** The rows `aggregateByCountry` returns for successfully parsed records. */
  function AggregateRows(xs: seq<Dated>, filters: AggregationFilters): seq<CountryRow> {
    var rows := UnfilteredRows(xs, filters.dateRange);
    var rows := FilterByCountry(rows, filters.countryQuery);
    var rows := FilterByField(rows, filters.numericFilter);
    SortByCountry(rows)
  }

  /**
   * The output holds exactly the unfiltered rows that pass both filters, each
   * at most as often as before, ascending by country name.
   */
  lemma AggregateRowsSpec(xs: seq<Dated>, filters: AggregationFilters)
    ensures
      var out, all := AggregateRows(xs, filters), UnfilteredRows(xs, filters.dateRange);
      && (forall row :: row in out <==>
            && row in all
            && MatchesCountryQuery(row, filters.countryQuery)
            && WithinBounds(FieldValue(row, filters.numericFilter.field), filters.numericFilter))
      && multiset(out) <= multiset(all)
      && (forall i, j :: 0 <= i < j < |out| ==> LexLe(out[i].country, out[j].country))
  {
    var all := UnfilteredRows(xs, filters.dateRange);
    var byCountry := FilterByCountry(all, filters.countryQuery);
    var byField := FilterByField(byCountry, filters.numericFilter);
    var out := SortByCountry(byField);
    CountryFilterSpec(all, filters.countryQuery);
    FieldFilterSpec(byCountry, filters.numericFilter);
    forall row
      ensures row in out <==> row in byField
    {
      assert row in out <==> row in multiset(out);
      assert row in byField <==> row in multiset(byField);
    }
  }

  /** No records, no rows. */
  lemma EmptyInputNoRows(filters: AggregationFilters)
    ensures AggregateRows([], filters) == []
  {
    var out := AggregateRows([], filters);
    AggregateRowsSpec([], filters);
    assert UnfilteredRows([], filters.dateRange) == [];
    assert multiset(out) == multiset{};
  }

  // ---------------------------------------------------------------------------
  // The pass

  // ---------------------------------------------------------------------------
  // The pass over the records

  /**
   * The state of the pass after the records `xs`: `order` lists the countries
   * in order of first appearance, `aggregates` holds an accumulator for each
   * of them and no other, and each accumulator is the one `BucketOf` states.
   */
  ghost predicate Tracks(aggregates: map<string, Accumulator>, order: seq<string>, xs: seq<Dated>, range: DateRange) {
    && order == CountriesOf(xs)
    && (forall country :: country in aggregates <==> country in order)
    && (forall country :: country in aggregates ==> aggregates[country] == BucketOf(xs, country, range))
  }

  /** The state before any record. */
  lemma TracksNothing(range: DateRange)
    ensures Tracks(map[], [], [], range)
  {
  }

  /**
   * One record keeps the state: its country's accumulator, created with the
   * record's population when the country is new, gains the record, and a new
   * country goes to the end of `order`.
   */
  lemma TracksRecord(aggregates: map<string, Accumulator>, order: seq<string>, xs: seq<Dated>, x: Dated, range: DateRange)
    requires Tracks(aggregates, order, xs, range)
    ensures
      var country := CountryOf(x);
      var start := if country in aggregates then aggregates[country]
                   else NewAccumulator(country, SafePopulation(x.record.popData2019));
      Tracks(aggregates[country := AddRecord(start, x, range)],
             if country in aggregates then order else order + [country],
             xs + [x], range)
  {
    var country := CountryOf(x);
    var start := if country in aggregates then aggregates[country]
                 else NewAccumulator(country, SafePopulation(x.record.popData2019));
    CountriesOfSnoc(xs, x);
    forall other | other in aggregates[country := AddRecord(start, x, range)]
      ensures aggregates[country := AddRecord(start, x, range)][other] == BucketOf(xs + [x], other, range)
    {
      if other == country {
        OwnBucketAddsRecord(xs, x, range);
      } else {
        OtherBucketsUnchanged(xs, x, other, range);
      }
    }
  }

  /** `Array.from(aggregates.values()).map(finalize)`: the rows in insertion order. */
  function RowsOf(aggregates: map<string, Accumulator>, order: seq<string>): (rows: seq<CountryRow>)
    requires forall country :: country in order ==> country in aggregates
    ensures |rows| == |order|
    ensures forall k :: 0 <= k < |order| ==> rows[k] == Finalize(aggregates[order[k]])
  {
    seq(|order|, k requires 0 <= k < |order| => Finalize(aggregates[order[k]]))
  }

  /** At the end of the pass its rows are the unfiltered rows of all the records. */
  lemma TracksRows(aggregates: map<string, Accumulator>, order: seq<string>, xs: seq<Dated>, range: DateRange)
    requires Tracks(aggregates, order, xs, range)
    ensures RowsOf(aggregates, order) == UnfilteredRows(xs, range)
  {
  }

  /**
   * One pass of the `for` loop over a record: its country gets a fresh
   * accumulator on its first record, its counts go to the all-time totals, and
   * its date is parsed, a failure ending the whole aggregation with that
   * error; an in-window date adds the counts to the period and the day.
   */
  method AddToAggregates(
    aggregates: map<string, Accumulator>, order: seq<string>, record: CovidRecord, range: DateRange,
    ghost xs: seq<Dated>)
    returns (r: Result<(map<string, Accumulator>, seq<string>), DateError>)
    requires Tracks(aggregates, order, xs, range)
    ensures ParseRecord(record).Failure? ==> r == Failure(ParseRecord(record).error)
    ensures ParseRecord(record).Success? ==>
      r.Success? && Tracks(r.value.0, r.value.1, xs + [ParseRecord(record).value], range)
  {
    var aggregates, order := aggregates, order;
    var countryKey := record.countriesAndTerritories;
    var population := SafePopulation(record.popData2019);
    ghost var aggregatesBefore, orderBefore := aggregates, order;
    if countryKey !in aggregates {
      aggregates := aggregates[countryKey := NewAccumulator(countryKey, population)];
      order := order + [countryKey];
    }
    var bucket := aggregates[countryKey];
    ghost var start := bucket;
    bucket := AddTotals(bucket, record);

    var parsed := ParseApiDate(record.dateRep);
    if parsed.Failure? {
      return Failure(parsed.error);
    }
    var recordDate := parsed.value;
    ghost var x := Dated(record, recordDate);
    assert ParseRecord(record) == Success(x);
    if IsDateInRange(recordDate, range.from, range.to) {
      bucket := AddToDay(bucket, recordDate.date, record);
    }
    aggregates := aggregates[countryKey := bucket];

    assert bucket == AddRecord(start, x, range);
    TracksRecord(aggregatesBefore, orderBefore, xs, x, range);
    r := Success((aggregates, order));
  }

  /**
   * `aggregateByCountry`: the rows for the parsed records, or the error of the
   * first record whose date does not parse, wherever that record's date falls.
   */
  method AggregateByCountry(records: seq<CovidRecord>, filters: AggregationFilters)
    returns (r: Result<seq<CountryRow>, DateError>)
    ensures MapResult(ParseRecord, records).Failure? ==>
      r == Failure(MapResult(ParseRecord, records).error)
    ensures MapResult(ParseRecord, records).Success? ==>
      r == Success(AggregateRows(MapResult(ParseRecord, records).value, filters))
  {
    var range := filters.dateRange;
    var aggregates: map<string, Accumulator> := map[];
    var order: seq<string> := [];
    ghost var xs: seq<Dated> := [];
    TracksNothing(range);
    var i := 0;
    while i < |records|
      invariant 0 <= i <= |records|
      invariant MapResult(ParseRecord, records[..i]) == Success(xs)
      invariant Tracks(aggregates, order, xs, range)
    {
      var step := AddToAggregates(aggregates, order, records[i], range, xs);
      MapResultPrefixStep(ParseRecord, records, i, xs);
      if step.Failure? {
        return Failure(step.error);
      }
      aggregates, order := step.value.0, step.value.1;
      xs := xs + [ParseRecord(records[i]).value];
      i := i + 1;
    }
    assert records[..i] == records;

    TracksRows(aggregates, order, xs, range);
    var rows := RowsOf(aggregates, order);
    rows := FilterByCountry(rows, filters.countryQuery);
    rows := FilterByField(rows, filters.numericFilter);
    rows := SortByCountry(rows);
    r := Success(rows);
  }
}
