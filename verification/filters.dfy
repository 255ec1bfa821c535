/** The filters the sidebar feeds (app.py lines 68-99): the season
    multiselect restricts the day table, and the hour table is then cut down
    to the dates that survive. The date range and the user-type radio are
    collected but never applied. */
module Filters {
  import opened Tables

  /** The sidebar's user-type choice: "Semua", "Aktif" or "Non Aktif". */
  datatype UserType = Semua | Aktif | NonAktif

  /** The sidebar's date interval. */
  datatype DateRange = DateRange(start: int, end: int)

  /** `day[day['musim'].isin(selected_seasons)]`: the day rows whose season
      is selected, each as often as in the input. Order: see
      SeasonFilterConcat. */
  function SeasonFilter(days: seq<DayRow>, selected: seq<string>): (r: seq<DayRow>)
    ensures forall d :: multiset(r)[d] == if d.musim in selected then multiset(days)[d] else 0
  {
    if days == [] then []
    else
      assert days == [days[0]] + days[1..];
      (if days[0].musim in selected then [days[0]] else []) + SeasonFilter(days[1..], selected)
  }

  /** The season filter keeps the input order: it acts on each part of a
      table separately. */
  lemma {:induction false} SeasonFilterConcat(a: seq<DayRow>, b: seq<DayRow>, selected: seq<string>)
    ensures SeasonFilter(a + b, selected) == SeasonFilter(a, selected) + SeasonFilter(b, selected)
  {
    if a == [] {
      assert a + b == b;
    } else {
      assert (a + b)[0] == a[0];
      assert (a + b)[1..] == a[1..] + b;
      SeasonFilterConcat(a[1..], b, selected);
    }
  }

  /** Selecting every season that occurs leaves the day table as it is. */
  lemma {:induction false} SeasonFilterAll(days: seq<DayRow>, selected: seq<string>)
    requires forall d :: d in days ==> d.musim in selected
    ensures SeasonFilter(days, selected) == days
  {
    if days != [] {
      assert days[0] in days;
      SeasonFilterAll(days[1..], selected);
    }
  }

  /** `day_filtered['dteday']`: the dates of the filtered days. */
  function DateColumn(days: seq<DayRow>): (r: seq<int>)
    ensures |r| == |days|
    ensures forall t :: t in r <==> exists d :: d in days && d.dteday == t
  {
    if days == [] then []
    else
      assert days == [days[0]] + days[1..];
      [days[0].dteday] + DateColumn(days[1..])
  }

  /** `hour[hour['dteday'].isin(dates)]`: the hour rows whose date is among
      `dates`, each as often as in the input. Order: see HourSemiJoinConcat. */
  function HourSemiJoin(hours: seq<HourRow>, dates: seq<int>): (r: seq<HourRow>)
    ensures forall h :: multiset(r)[h] == if h.dteday in dates then multiset(hours)[h] else 0
  {
    if hours == [] then []
    else
      assert hours == [hours[0]] + hours[1..];
      (if hours[0].dteday in dates then [hours[0]] else []) + HourSemiJoin(hours[1..], dates)
  }

  lemma {:induction false} HourSemiJoinConcat(a: seq<HourRow>, b: seq<HourRow>, dates: seq<int>)
    ensures HourSemiJoin(a + b, dates) == HourSemiJoin(a, dates) + HourSemiJoin(b, dates)
  {
    if a == [] {
      assert a + b == b;
    } else {
      assert (a + b)[0] == a[0];
      assert (a + b)[1..] == a[1..] + b;
      HourSemiJoinConcat(a[1..], b, dates);
    }
  }

  /** Both filtered tables. */
  datatype Filtered = Filtered(days: seq<DayRow>, hours: seq<HourRow>)

  /** Lines 97-99 with the sidebar's three inputs. Only `selected` is used. */
  function ApplyFilters(day: seq<DayRow>, hour: seq<HourRow>, selected: seq<string>,
                        dateRange: DateRange, userType: UserType): (f: Filtered)
    ensures forall d :: multiset(f.days)[d] == if d.musim in selected then multiset(day)[d] else 0
    ensures forall h :: multiset(f.hours)[h] ==
                        if exists d :: d in f.days && d.dteday == h.dteday then multiset(hour)[h] else 0
  {
    var days := SeasonFilter(day, selected);
    Filtered(days, HourSemiJoin(hour, DateColumn(days)))
  }

  /** Neither the date range nor the user type changes what is shown. */
  lemma FiltersIgnoreDateRangeAndUserType(day: seq<DayRow>, hour: seq<HourRow>, selected: seq<string>,
                                          r1: DateRange, u1: UserType, r2: DateRange, u2: UserType)
    ensures ApplyFilters(day, hour, selected, r1, u1) == ApplyFilters(day, hour, selected, r2, u2)
  {
  }

  /** Every filtered hour belongs to a filtered day, and every filtered day
      has a selected season: the two views are subsets of the inputs that
      agree with each other. */
  lemma FilteredConsistent(day: seq<DayRow>, hour: seq<HourRow>, selected: seq<string>,
                           dateRange: DateRange, userType: UserType)
    ensures var f := ApplyFilters(day, hour, selected, dateRange, userType);
      && (forall d :: d in f.days ==> d in day && d.musim in selected)
      && (forall h :: h in f.hours ==> h in hour && exists d :: d in f.days && d.dteday == h.dteday)
  {
    var f := ApplyFilters(day, hour, selected, dateRange, userType);
    forall d | d in f.days
      ensures d in day && d.musim in selected
    {
      assert multiset(f.days)[d] > 0;
    }
    forall h | h in f.hours
      ensures h in hour && exists d :: d in f.days && d.dteday == h.dteday
    {
      assert multiset(f.hours)[h] > 0;
    }
  }

  lemma {:induction false} SeasonFilterNone(days: seq<DayRow>)
    ensures SeasonFilter(days, []) == []
  {
    if days != [] {
      SeasonFilterNone(days[1..]);
    }
  }

  lemma {:induction false} HourSemiJoinNone(hours: seq<HourRow>)
    ensures HourSemiJoin(hours, []) == []
  {
    if hours != [] {
      HourSemiJoinNone(hours[1..]);
    }
  }

  /** With no season selected both views are empty. */
  lemma EmptySelection(day: seq<DayRow>, hour: seq<HourRow>, dateRange: DateRange, userType: UserType)
    ensures ApplyFilters(day, hour, [], dateRange, userType) == Filtered([], [])
  {
    SeasonFilterNone(day);
    HourSemiJoinNone(hour);
  }

  /** Selecting every season keeps the whole day table, and then the hour
      rows of every day. */
  lemma AllSeasonsSelected(day: seq<DayRow>, hour: seq<HourRow>, selected: seq<string>,
                           dateRange: DateRange, userType: UserType)
    requires forall d :: d in day ==> d.musim in selected
    ensures ApplyFilters(day, hour, selected, dateRange, userType).days == day
    ensures ApplyFilters(day, hour, selected, dateRange, userType).hours == HourSemiJoin(hour, DateColumn(day))
  {
    SeasonFilterAll(day, selected);
  }
}
