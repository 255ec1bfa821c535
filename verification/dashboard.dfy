/** The page as a whole (app.py lines 97-263): the sidebar's inputs go in,
    the three headline numbers and the five chart tables come out, all of
    them computed from the two filtered tables. */
module Dashboard {
  import opened Tables
  import opened Ordering
  import opened Grouping
  import opened Filters
  import opened Metrics
  import opened Aggregations

  /** The hour row's date is that of a day of a selected season. */
  predicate OfSelectedDay(x: HourRow, day: seq<DayRow>, selected: seq<string>) {
    exists d :: d in day && d.musim in selected && d.dteday == x.dteday
  }

  /** Some input hour row of a day of a selected season has hour `h`. */
  predicate SelectedHour(h: int, day: seq<DayRow>, hour: seq<HourRow>, selected: seq<string>) {
    exists x :: x in hour && x.jam == h && OfSelectedDay(x, day, selected)
  }

  /** Everything the page shows, before formatting and plotting. */
  datatype View = View(
    totalPenyewa: int,
    meanPenyewa: Option<real>,
    meanJam: Option<real>,
    dailyRentals: seq<Keyed<int>>,
    rentByHour: seq<MeltedRow>,
    trend: seq<TrendRow>,
    weatherImpact: seq<WeatherRow>,
    seasonAnalysis: seq<Averaged<string>>)

  /** The filters, then every metric and aggregation on the filtered tables.
      The daily chart adds up to the headline total, no unselected season
      reaches the season chart, and every bar of the hourly and trend charts
      comes from an hour row of a day of a selected season. */
  function Render(day: seq<DayRow>, hour: seq<HourRow>, selected: seq<string>,
                  dateRange: DateRange, userType: UserType): (v: View)
    ensures v.totalPenyewa == SumCounts(v.dailyRentals).total
    ensures forall a :: a in v.seasonAnalysis ==> a.key in selected
    ensures forall t :: t in v.trend ==> t.row in hour && OfSelectedDay(t.row, day, selected)
    ensures forall m :: m in v.rentByHour ==> SelectedHour(m.jam, day, hour, selected)
  {
    var f := ApplyFilters(day, hour, selected, dateRange, userType);
    SeasonsSelected(day, hour, selected, dateRange, userType);
    TrendFromSelectedDays(day, hour, selected, dateRange, userType);
    HoursFromSelectedDays(day, hour, selected, dateRange, userType);
    View(TotalPenyewa(f.days), MeanPenyewa(f.days), MeanJam(f.hours),
         DailyRentals(f.days), RentByHour(f.hours), RentByHourTrend(f.hours),
         WeatherImpact(f.days), SeasonAnalysis(f.days))
  }

  /** A filtered hour row belongs to a day of a selected season. */
  lemma FilteredHourSource(day: seq<DayRow>, hour: seq<HourRow>, selected: seq<string>,
                           dateRange: DateRange, userType: UserType, x: HourRow)
    requires x in ApplyFilters(day, hour, selected, dateRange, userType).hours
    ensures x in hour && OfSelectedDay(x, day, selected)
  {
    FilteredConsistent(day, hour, selected, dateRange, userType);
  }

  /** Seasons left out of the multiselect never reach the season chart. */
  lemma SeasonsSelected(day: seq<DayRow>, hour: seq<HourRow>, selected: seq<string>,
                        dateRange: DateRange, userType: UserType)
    ensures forall a :: a in SeasonAnalysis(ApplyFilters(day, hour, selected, dateRange, userType).days) ==>
              a.key in selected
  {
    var f := ApplyFilters(day, hour, selected, dateRange, userType);
    FilteredConsistent(day, hour, selected, dateRange, userType);
    forall a | a in SeasonAnalysis(f.days)
      ensures a.key in selected
    {
      var d :| d in f.days && d.musim == a.key;
    }
  }

  /** Every row of the trend chart is an input hour row of a day of a
      selected season. */
  lemma TrendFromSelectedDays(day: seq<DayRow>, hour: seq<HourRow>, selected: seq<string>,
                              dateRange: DateRange, userType: UserType)
    ensures forall t :: t in RentByHourTrend(ApplyFilters(day, hour, selected, dateRange, userType).hours) ==>
              t.row in hour && OfSelectedDay(t.row, day, selected)
  {
    var f := ApplyFilters(day, hour, selected, dateRange, userType);
    forall t | t in RentByHourTrend(f.hours)
      ensures t.row in hour && OfSelectedDay(t.row, day, selected)
    {
      assert multiset(RentByHourTrend(f.hours))[t] > 0;
      assert t.row in multiset(f.hours);
      FilteredHourSource(day, hour, selected, dateRange, userType, t.row);
    }
  }

  /** The input hour row behind one row of the hourly chart. */
  lemma MeltedRowSource(day: seq<DayRow>, hour: seq<HourRow>, selected: seq<string>,
                        dateRange: DateRange, userType: UserType, p: nat)
    requires p < |RentByHour(ApplyFilters(day, hour, selected, dateRange, userType).hours)|
    ensures SelectedHour(RentByHour(ApplyFilters(day, hour, selected, dateRange, userType).hours)[p].jam,
                         day, hour, selected)
  {
    var hs := ApplyFilters(day, hour, selected, dateRange, userType).hours;
    var c := RentByHourValues(hs, p);
    var x :| x in hs && x.jam == RentByHour(hs)[p].jam;
    FilteredHourSource(day, hour, selected, dateRange, userType, x);
  }

  /** Every bar of the hourly chart is for an hour that some input hour row
      of a day of a selected season has. */
  lemma HoursFromSelectedDays(day: seq<DayRow>, hour: seq<HourRow>, selected: seq<string>,
                              dateRange: DateRange, userType: UserType)
    ensures forall m :: m in RentByHour(ApplyFilters(day, hour, selected, dateRange, userType).hours) ==>
              SelectedHour(m.jam, day, hour, selected)
  {
    var r := RentByHour(ApplyFilters(day, hour, selected, dateRange, userType).hours);
    forall m | m in r
      ensures SelectedHour(m.jam, day, hour, selected)
    {
      var p :| 0 <= p < |r| && r[p] == m;
      MeltedRowSource(day, hour, selected, dateRange, userType, p);
    }
  }

  /** The season chart's means, weighted by the number of days of each
      season, add up to the headline total. */
  lemma SeasonMeansAddUp(day: seq<DayRow>, hour: seq<HourRow>, selected: seq<string>,
                         dateRange: DateRange, userType: UserType)
    ensures var v := Render(day, hour, selected, dateRange, userType);
      var days := ApplyFilters(day, hour, selected, dateRange, userType).days;
      WeightedTotal(v.seasonAnalysis, BySeason(days)) == v.totalPenyewa as real
  {
    var days := ApplyFilters(day, hour, selected, dateRange, userType).days;
    StrLessIsStrictTotal();
    GroupMeansWeighted(BySeason(days), StrLess);
    ProjectSum(days, DaySeason, DayCounts);
  }

  /** Likewise for the weather chart, weighted by the number of days of
      each weather code. */
  lemma WeatherMeansAddUp(day: seq<DayRow>, hour: seq<HourRow>, selected: seq<string>,
                          dateRange: DateRange, userType: UserType)
    ensures var days := ApplyFilters(day, hour, selected, dateRange, userType).days;
      WeightedTotal(GroupMeans(ByWeather(days), IntLess), ByWeather(days)) == TotalPenyewa(days) as real
  {
    var days := ApplyFilters(day, hour, selected, dateRange, userType).days;
    IntLessIsStrictTotal();
    GroupMeansWeighted(ByWeather(days), IntLess);
    ProjectSum(days, DayWeather, DayCounts);
  }

  /** With no season selected the page shows a zero total, no means and
      empty charts. */
  lemma NothingSelected(day: seq<DayRow>, hour: seq<HourRow>, dateRange: DateRange, userType: UserType)
    ensures Render(day, hour, [], dateRange, userType) == View(0, None, None, [], [], [], [], [])
  {
    EmptySelection(day, hour, dateRange, userType);
    EmptyTables();
  }

  /** Every aggregation of empty tables is empty. */
  lemma EmptyTables()
    ensures DailyRentals([]) == [] && RentByHour([]) == [] && RentByHourTrend([]) == []
    ensures WeatherImpact([]) == [] && SeasonAnalysis([]) == []
  {
    EmptyDaily();
    EmptyHourly();
    EmptyWeather();
    EmptySeason();
  }

  lemma EmptyDaily()
    ensures DailyRentals([]) == []
  {
    assert ByDate([]) == [];
  }

  lemma EmptyHourly()
    ensures RentByHour([]) == []
  {
    assert |HourlyRentals([])| == 0;
  }

  lemma EmptyWeather()
    ensures WeatherImpact([]) == []
  {
    IntLessIsStrictTotal();
    assert ByWeather([]) == [];
    assert GroupSums(ByWeather([]), IntLess) == [];
  }

  lemma EmptySeason()
    ensures SeasonAnalysis([]) == []
  {
    StrLessIsStrictTotal();
    assert BySeason([]) == [];
    assert GroupSums(BySeason([]), StrLess) == [];
  }

  /** A day table with a summer day of 100 rentals and a winter day of 50,
      with only summer selected: one filtered day, and a season chart with
      the single row summer, mean 100. */
  lemma SummerOnly()
    ensures var day := [DayRow(1, "Summer", 1, Counts(100, 40, 60)), DayRow(2, "Winter", 2, Counts(50, 20, 30))];
      var f := ApplyFilters(day, [], ["Summer"], DateRange(1, 2), Semua);
      && f.days == [day[0]]
      && SeasonAnalysis(f.days) == [Averaged("Summer", Means(100.0, 40.0, 60.0))]
  {
    var day := [DayRow(1, "Summer", 1, Counts(100, 40, 60)), DayRow(2, "Winter", 2, Counts(50, 20, 30))];
    var f := ApplyFilters(day, [], ["Summer"], DateRange(1, 2), Semua);
    assert day[1..][1..] == [];
    assert "Winter" !in ["Summer"];
    assert f.days == [day[0]];
    var keyed := BySeason(f.days);
    assert |keyed| == 1 && keyed[0] == Keyed(DaySeason(day[0]), DayCounts(day[0]));
    StrLessIsStrictTotal();
    assert keyed[1..] == [];
    assert GroupSums(keyed, StrLess) == keyed;
    assert CountWhere(keyed, "Summer") == 1;
  }
}
