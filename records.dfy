/**
 * The dataset's daily record (src/types/covid.ts), restricted to the fields
 * the aggregation and the time series read, and what both do with records:
 * pair each with its parsed report date, keep those inside a date window, and
 * sum cases or deaths, in total or per UTC day.
 */
module Records {
  import opened Wrappers
  import opened Sequences
  import opened Calendar

  /** `CovidRecord`: `dateRep`, `cases`, `deaths`, `countriesAndTerritories` and `popData2019`. */
  datatype CovidRecord = CovidRecord(
    dateRep: string,
    cases: int,
    deaths: int,
    countriesAndTerritories: string,
    popData2019: Option<int>)

  /** A record with its parsed report date: `{ record, parsedDate }`. */
  datatype Dated = Dated(record: CovidRecord, parsedDate: ApiDate)

  /** `{ record, parsedDate: parseApiDate(record.dateRep) }`, or the error `parseApiDate` throws. */
  function ParseRecord(record: CovidRecord): Result<Dated, DateError> {
    match ParseApiDate(record.dateRep)
    case Failure(e) => Failure(e)
    case Success(d) => Success(Dated(record, d))
  }

  /**
   * Parsing all records succeeds exactly when every record's date parses, and
   * then pairs each record with its own date.
   */
  lemma ParseRecordsSucceeds(records: seq<CovidRecord>)
    ensures MapResult(ParseRecord, records).Success? <==>
      forall i :: 0 <= i < |records| ==> ParseApiDate(records[i].dateRep).Success?
    ensures MapResult(ParseRecord, records).Success? ==>
      forall i :: 0 <= i < |records| ==>
        MapResult(ParseRecord, records).value[i] == Dated(records[i], ParseApiDate(records[i].dateRep).value)
  {
    if forall i :: 0 <= i < |records| ==> ParseApiDate(records[i].dateRep).Success? {
      SucceedsWhenAllSucceed(ParseRecord, records);
    }
    if MapResult(ParseRecord, records).Success? {
      forall i | 0 <= i < |records|
        ensures ParseApiDate(records[i].dateRep).Success?
        ensures MapResult(ParseRecord, records).value[i] == Dated(records[i], ParseApiDate(records[i].dateRep).value)
      {
        MapResultElements(ParseRecord, records, i);
      }
    }
  }

  /** `filters.dateRange`: the inclusive window the user selected. */
  datatype DateRange = DateRange(from: Date, to: Date)

  predicate InRange(range: DateRange, x: Dated) {
    IsDateInRange(x.parsedDate, range.from, range.to)
  }

  function IsInRange(range: DateRange): Dated -> bool {
    x => InRange(range, x)
  }

  /** The records whose date lies in the window. */
  function InWindow(xs: seq<Dated>, range: DateRange): seq<Dated> {
    Filter(IsInRange(range), xs)
  }

  lemma InWindowSpec(xs: seq<Dated>, range: DateRange)
    ensures forall x :: x in InWindow(xs, range) <==> x in xs && InRange(range, x)
  {
    FilterSpec(IsInRange(range), xs);
  }

  lemma InWindowSnoc(xs: seq<Dated>, x: Dated, range: DateRange)
    ensures InWindow(xs + [x], range) == InWindow(xs, range) + if InRange(range, x) then [x] else []
  {
    assert (xs + [x])[..|xs|] == xs;
  }

  /** The country a record belongs to: `countriesAndTerritories`, unnormalised. */
  function CountryOf(x: Dated): string {
    x.record.countriesAndTerritories
  }

  function IsOfCountry(country: string): Dated -> bool {
    x => CountryOf(x) == country
  }

  /** The records of one country, compared exactly, with no name normalisation. */
  function OfCountry(xs: seq<Dated>, country: string): seq<Dated> {
    Filter(IsOfCountry(country), xs)
  }

  lemma OfCountrySpec(xs: seq<Dated>, country: string)
    ensures forall x :: x in OfCountry(xs, country) <==> x in xs && CountryOf(x) == country
  {
    FilterSpec(IsOfCountry(country), xs);
  }

  lemma OfCountrySnoc(xs: seq<Dated>, x: Dated, country: string)
    ensures OfCountry(xs + [x], country) == OfCountry(xs, country) + if CountryOf(x) == country then [x] else []
  {
    assert (xs + [x])[..|xs|] == xs;
  }

  /** The countries of the records, each once, in order of first appearance. */
  function CountriesOf(xs: seq<Dated>): seq<string> {
    if xs == [] then []
    else
      var countries := CountriesOf(xs[..|xs| - 1]);
      var country := CountryOf(xs[|xs| - 1]);
      if country in countries then countries else countries + [country]
  }

  lemma CountriesOfSnoc(xs: seq<Dated>, x: Dated)
    ensures CountriesOf(xs + [x]) ==
      if CountryOf(x) in CountriesOf(xs) then CountriesOf(xs) else CountriesOf(xs) + [CountryOf(x)]
  {
    assert (xs + [x])[..|xs|] == xs;
  }

  /** Each country occurs once, and exactly the countries with records occur. */
  lemma {:induction false} CountriesOfSpec(xs: seq<Dated>)
    ensures Distinct(CountriesOf(xs))
    ensures forall country :: country in CountriesOf(xs) <==> OfCountry(xs, country) != []
  {
    if xs != [] {
      var init, last := xs[..|xs| - 1], xs[|xs| - 1];
      assert xs == init + [last];
      CountriesOfSpec(init);
      CountriesOfSnoc(init, last);
      if CountryOf(last) !in CountriesOf(init) {
        DistinctSnoc(CountriesOf(init), CountryOf(last));
      }
      forall country
        ensures country in CountriesOf(xs) <==> OfCountry(xs, country) != []
      {
        OfCountrySnoc(init, last, country);
      }
    }
  }

  /** The sums of one count over each listed country's records, added up. */
  function SumByCountry(countries: seq<string>, xs: seq<Dated>, c: Count): int {
    if countries == [] then 0
    else SumByCountry(countries[..|countries| - 1], xs, c) + Sum(OfCountry(xs, countries[|countries| - 1]), c)
  }

  /** No records, nothing to add up, whatever the countries. */
  lemma {:induction false} SumByCountryOfNothing(countries: seq<string>, c: Count)
    ensures SumByCountry(countries, [], c) == 0
  {
    if countries != [] {
      SumByCountryOfNothing(countries[..|countries| - 1], c);
    }
  }

  /** One more record adds its count to the sum of its own country, if that country is listed. */
  lemma {:induction false} SumByCountryAddsRecord(countries: seq<string>, xs: seq<Dated>, x: Dated, c: Count)
    requires Distinct(countries)
    ensures SumByCountry(countries, xs + [x], c) ==
      SumByCountry(countries, xs, c) + if CountryOf(x) in countries then CountOf(x, c) else 0
  {
    if countries != [] {
      var init, country := countries[..|countries| - 1], countries[|countries| - 1];
      assert countries == init + [country];
      DistinctInit(countries);
      SumByCountryAddsRecord(init, xs, x, c);
      OfCountrySnoc(xs, x, country);
      if CountryOf(x) == country {
        SumSnoc(OfCountry(xs, country), x, c);
      } else {
        assert OfCountry(xs + [x], country) == OfCountry(xs, country);
        assert CountryOf(x) in countries <==> CountryOf(x) in init;
      }
    }
  }

  /**
   * The per-country sums over distinct countries that include every record's
   * country add up to the total: every record belongs to exactly one of them.
   */
  lemma {:induction false} PerCountrySumsAddUp(countries: seq<string>, xs: seq<Dated>, c: Count)
    requires Distinct(countries)
    requires forall x :: x in xs ==> CountryOf(x) in countries
    ensures SumByCountry(countries, xs, c) == Sum(xs, c)
  {
    if xs == [] {
      SumByCountryOfNothing(countries, c);
    } else {
      var init, last := xs[..|xs| - 1], xs[|xs| - 1];
      assert xs == init + [last];
      PerCountrySumsAddUp(countries, init, c);
      SumByCountryAddsRecord(countries, init, last, c);
      SumSnoc(init, last, c);
    }
  }

  /**
   * The UTC day of a record. Records are grouped by it: its `YYYY-MM-DD` key
   * names the same day and no other (`Calendar.IsoDateInjective`).
   */
  function DayOf(x: Dated): Day {
    x.parsedDate.date
  }

  function IsOnDay(day: Day): Dated -> bool {
    x => DayOf(x) == day
  }

  /** The records reported on `day`. */
  function OnDay(xs: seq<Dated>, day: Day): seq<Dated> {
    Filter(IsOnDay(day), xs)
  }

  lemma OnDaySpec(xs: seq<Dated>, day: Day)
    ensures forall x :: x in OnDay(xs, day) <==> x in xs && DayOf(x) == day
  {
    FilterSpec(IsOnDay(day), xs);
  }

  lemma OnDaySnoc(xs: seq<Dated>, x: Dated, day: Day)
    ensures OnDay(xs + [x], day) == OnDay(xs, day) + if DayOf(x) == day then [x] else []
  {
    assert (xs + [x])[..|xs|] == xs;
  }

  /** Which of the two counts a sum adds up. */
  datatype Count = Cases | Deaths

  function CountOf(x: Dated, c: Count): int {
    match c
    case Cases => x.record.cases
    case Deaths => x.record.deaths
  }

  /** The sum of one count over records. */
  function Sum(xs: seq<Dated>, c: Count): int {
    if xs == [] then 0 else Sum(xs[..|xs| - 1], c) + CountOf(xs[|xs| - 1], c)
  }

  lemma SumSnoc(xs: seq<Dated>, x: Dated, c: Count)
    ensures Sum(xs + [x], c) == Sum(xs, c) + CountOf(x, c)
  {
    assert (xs + [x])[..|xs|] == xs;
  }

  /** The days of the records, each once, in order of first appearance. */
  function DaysOf(xs: seq<Dated>): seq<Day> {
    if xs == [] then []
    else
      var days := DaysOf(xs[..|xs| - 1]);
      var day := DayOf(xs[|xs| - 1]);
      if day in days then days else days + [day]
  }

  lemma DaysOfSnoc(xs: seq<Dated>, x: Dated)
    ensures DayOf(x) in DaysOf(xs) ==> DaysOf(xs + [x]) == DaysOf(xs)
    ensures DayOf(x) !in DaysOf(xs) ==> DaysOf(xs + [x]) == DaysOf(xs) + [DayOf(x)]
  {
    assert (xs + [x])[..|xs|] == xs;
  }

  /** One more record lists its own day, and no other new day. */
  lemma DaysOfSnocMember(xs: seq<Dated>, x: Dated, day: Day)
    ensures day in DaysOf(xs + [x]) <==> day in DaysOf(xs) || day == DayOf(x)
  {
    DaysOfSnoc(xs, x);
  }

  /** Each day occurs once, and exactly the days with records occur. */
  lemma {:induction false} DaysOfSpec(xs: seq<Dated>)
    ensures Distinct(DaysOf(xs))
    ensures forall day :: day in DaysOf(xs) <==> OnDay(xs, day) != []
  {
    if xs != [] {
      var init, last := xs[..|xs| - 1], xs[|xs| - 1];
      assert xs == init + [last];
      DaysOfSpec(init);
      DaysOfSnoc(init, last);
      if DayOf(last) !in DaysOf(init) {
        DistinctSnoc(DaysOf(init), DayOf(last));
      }
      forall day
        ensures day in DaysOf(xs) <==> OnDay(xs, day) != []
      {
        OnDaySnoc(init, last, day);
      }
    }
  }

  /** A day that is not listed has no records. */
  lemma UnlistedDayIsEmpty(xs: seq<Dated>, day: Day)
    requires day !in DaysOf(xs)
    ensures OnDay(xs, day) == []
  {
    DaysOfSpec(xs);
  }

  /** Every listed day is a parsed record's day, so a real day with a four-digit year. */
  lemma DaysAreValid(xs: seq<Dated>)
    ensures forall day :: day in DaysOf(xs) ==> IsValidDay(day)
  {
    DaysOfSpec(xs);
    forall day | day in DaysOf(xs)
      ensures IsValidDay(day)
    {
      OnDaySpec(xs, day);
      assert OnDay(xs, day)[0] in OnDay(xs, day);
    }
  }

  /** The per-day sums of one count, over the given days. */
  function SumByDay(days: seq<Day>, xs: seq<Dated>, c: Count): int {
    if days == [] then 0
    else SumByDay(days[..|days| - 1], xs, c) + Sum(OnDay(xs, days[|days| - 1]), c)
  }

  /** One more record adds its count to the sum of its own day, if that day is listed. */
  lemma {:induction false} SumByDayAddsRecord(days: seq<Day>, xs: seq<Dated>, x: Dated, c: Count)
    requires Distinct(days)
    ensures SumByDay(days, xs + [x], c) ==
      SumByDay(days, xs, c) + if DayOf(x) in days then CountOf(x, c) else 0
  {
    if days != [] {
      var init, day := days[..|days| - 1], days[|days| - 1];
      assert days == init + [day];
      DistinctInit(days);
      SumByDayAddsRecord(init, xs, x, c);
      OnDaySnoc(xs, x, day);
      if DayOf(x) == day {
        SumSnoc(OnDay(xs, day), x, c);
        assert Sum(OnDay(xs + [x], day), c) == Sum(OnDay(xs, day), c) + CountOf(x, c);
      } else {
        assert OnDay(xs + [x], day) == OnDay(xs, day);
        assert DayOf(x) in days <==> DayOf(x) in init;
      }
    }
  }

  /** The per-day sums add up to the total: every record falls on exactly one listed day. */
  lemma {:induction false} PerDaySumsAddUp(xs: seq<Dated>, c: Count)
    ensures SumByDay(DaysOf(xs), xs, c) == Sum(xs, c)
  {
    if xs != [] {
      var init, last := xs[..|xs| - 1], xs[|xs| - 1];
      assert xs == init + [last];
      var days, day := DaysOf(init), DayOf(last);
      PerDaySumsAddUp(init, c);
      DaysOfSpec(init);
      DaysOfSnoc(init, last);
      SumByDayAddsRecord(days, init, last, c);
      if day !in days {
        NewDaySum(days, init, last, c);
      }
    }
  }

  /** A record on a day not yet listed: listing its day adds exactly its count. */
  lemma NewDaySum(days: seq<Day>, xs: seq<Dated>, x: Dated, c: Count)
    requires forall day :: day in days <==> OnDay(xs, day) != []
    requires DayOf(x) !in days
    ensures SumByDay(days + [DayOf(x)], xs + [x], c) == SumByDay(days, xs + [x], c) + CountOf(x, c)
  {
    var day := DayOf(x);
    assert (days + [day])[..|days|] == days;
    OnDaySnoc(xs, x, day);
    assert OnDay(xs, day) == [];
    assert OnDay(xs + [x], day) == [x];
    SumSnoc([], x, c);
    assert [] + [x] == [x];
  }
}
