/** The analytics page of components/analytics-page.tsx: which view it shows,
    the 30-day visitor trend with missing days filled in, the top referrers,
    the country list and the device chart's colours. `Number(...)` is a
    parameter: it yields `None` where JavaScript yields `NaN`. */
module Analytics {
  import opened Wrappers

  /** One day of the daily-visitors series, as the server sends it. */
  datatype TrendRecord = TrendRecord(date: string, uniqueVisitors: string)
  datatype Referrer = Referrer(referrer: string, count: string)
  datatype CountryRecord = CountryRecord(country: string, visitors: string)
  datatype DeviceRecord = DeviceRecord(deviceType: string, count: string)

  /** The parts of the analytics record this page derives views from;
      `countryDistribution` is `None` when the field is missing. */
  datatype Report = Report(
    dailyVisitorsTrend: seq<TrendRecord>,
    topReferrers: seq<Referrer>,
    countryDistribution: Option<seq<CountryRecord>>,
    deviceTypeDistribution: seq<DeviceRecord>)

  /** `records.find(d => d.date === date)`: the first record of that day. */
  function FindByDate(records: seq<TrendRecord>, date: string): (r: Option<TrendRecord>)
    ensures r.None? <==> forall i :: 0 <= i < |records| ==> records[i].date != date
    ensures r.Some? ==> exists i :: 0 <= i < |records| && records[i] == r.value && r.value.date == date
                                    && forall j :: 0 <= j < i ==> records[j].date != date
  {
    if records == [] then None
    else if records[0].date == date then Some(records[0])
    else
      var rest := FindByDate(records[1..], date);
      if rest.Some? then
        ghost var i :| 0 <= i < |records[1..]| && records[1..][i] == rest.value && rest.value.date == date
          && forall j :: 0 <= j < i ==> records[1..][j].date != date;
        assert records[i + 1] == rest.value;
        rest
      else rest
  }

  /** A filled-in day of the trend: its date and its visitor count, `None`
      standing for `NaN`. */
  datatype TrendPoint = TrendPoint(date: string, uniqueVisitors: Option<real>)

  /** The count shown for `day`: the parsed count of the first record of that
      day, or 0 when there is none or no report at all. */
  function DayCount(report: Option<Report>, day: string, number: string -> Option<real>): Option<real>
  {
    var found := if report.Some? then FindByDate(report.value.dailyVisitorsTrend, day) else None;
    if found.Some? then number(found.value.uniqueVisitors) else Some(0.0)
  }

  /** `filledVisitorsTrend`: one point per day of `days`, in that order. */
  function FilledTrend(days: seq<string>, report: Option<Report>, number: string -> Option<real>)
    : (points: seq<TrendPoint>)
    ensures |points| == |days|
    ensures forall i :: 0 <= i < |days| ==> points[i].date == days[i]
    ensures forall i :: 0 <= i < |days| ==> points[i].uniqueVisitors == DayCount(report, days[i], number)
  {
    seq(|days|, i requires 0 <= i < |days| => TrendPoint(days[i], DayCount(report, days[i], number)))
  }

  /** Without a report, every day shows 0. */
  lemma NoReportAllZero(days: seq<string>, number: string -> Option<real>)
    ensures forall i :: 0 <= i < |days| ==> FilledTrend(days, None, number)[i].uniqueVisitors == Some(0.0)
  {
  }

  /** A day without a record shows 0; a day with records shows the count of
      the first one, even when it does not parse. */
  lemma {:induction false} DayCountCases(records: seq<TrendRecord>, day: string, number: string -> Option<real>)
    ensures var count := DayCount(Some(Report(records, [], None, [])), day, number);
      && ((forall i :: 0 <= i < |records| ==> records[i].date != day) ==> count == Some(0.0))
      && forall i :: (0 <= i < |records| && records[i].date == day
                      && (forall j :: 0 <= j < i ==> records[j].date != day))
                     ==> count == number(records[i].uniqueVisitors)
  {
    var found := FindByDate(records, day);
    forall i | 0 <= i < |records| && records[i].date == day && (forall j :: 0 <= j < i ==> records[j].date != day)
      ensures found == Some(records[i])
    {
      FirstMatch(records, day, i);
    }
  }

  /** The record `find` returns is the first of its day. */
  lemma {:induction false} FirstMatch(records: seq<TrendRecord>, day: string, i: nat)
    requires i < |records| && records[i].date == day
    requires forall j :: 0 <= j < i ==> records[j].date != day
    ensures FindByDate(records, day) == Some(records[i])
  {
    if i > 0 {
      assert records[0].date != day;
      FirstMatch(records[1..], day, i - 1);
    }
  }

  /** The views the page can show, in the order the checks are made. */
  datatype PageView = LoadingView | ErrorView(message: string) | NoticeView | DashboardView(report: Report)

  /** Loading first, then a non-empty error, then the notice for a missing
      report, then the dashboard. */
  function PageViewOf(loading: bool, error: Option<string>, report: Option<Report>): (v: PageView)
    ensures loading <==> v == LoadingView
    ensures v.ErrorView? <==> !loading && error.Some? && error.value != []
    ensures v.ErrorView? ==> v.message == error.value
    ensures v == NoticeView <==> !loading && (error.None? || error.value == []) && report.None?
    ensures v.DashboardView? ==> report == Some(v.report)
  {
    if loading then LoadingView
    else if error.Some? && error.value != [] then ErrorView(error.value)
    else if report.None? then NoticeView
    else DashboardView(report.value)
  }

  /** The page's state as mounted (not loading, no error, no report) shows
      the notice. The request that would change that state is commented out
      at components/analytics-page.tsx:84; no transition is modelled. */
  lemma MountedShowsNotice()
    ensures PageViewOf(false, None, None) == NoticeView
  {
  }

  const MaxReferrers: nat := 5
  const DirectLabel: string := "(Direct)"

  /** One line of the referrer list. */
  datatype ReferrerRow = ReferrerRow(caption: string, count: string)

  /** `renderTopReferrers`: the first five referrers, in order; an empty
      referrer is labelled "(Direct)". */
  function TopReferrers(refs: seq<Referrer>): (rows: seq<ReferrerRow>)
    ensures |rows| == if |refs| < MaxReferrers then |refs| else MaxReferrers
    ensures forall i :: 0 <= i < |rows| ==> rows[i].count == refs[i].count
    ensures forall i :: 0 <= i < |rows| ==>
      rows[i].caption == (if refs[i].referrer == [] then DirectLabel else refs[i].referrer)
  {
    var shown := if |refs| <= MaxReferrers then refs else refs[..MaxReferrers];
    seq(|shown|, i requires 0 <= i < |shown| =>
      ReferrerRow(if shown[i].referrer == [] then DirectLabel else shown[i].referrer, shown[i].count))
  }

  /** One line of the country list. */
  datatype CountryRow = CountryRow(name: string, visitors: real)
  datatype CountryList = NoCountryData | Countries(rows: seq<CountryRow>)

  const UnknownCountry: string := "unknown"
  const UnknownLabel: string := "Unknown"

  /** The name shown for a country. */
  function CountryName(country: string): (r: string)
    ensures country == UnknownCountry ==> r == UnknownLabel
    ensures country != UnknownCountry ==> r == country
  {
    if country == UnknownCountry then UnknownLabel else country
  }

  /** `Number(visitors) || 0`: `NaN` (and 0) show as 0. */
  function CountryVisitors(visitors: string, number: string -> Option<real>): (r: real)
    ensures number(visitors).Some? ==> r == number(visitors).value
    ensures number(visitors).None? ==> r == 0.0
  {
    number(visitors).GetOr(0.0)
  }

  /** `renderCountryDistribution`: the message for a missing or empty list,
      otherwise one row per country in order. */
  function CountryListOf(data: Option<seq<CountryRecord>>, number: string -> Option<real>): (v: CountryList)
    ensures v == NoCountryData <==> data.None? || data.value == []
    ensures v.Countries? ==> |v.rows| == |data.value|
    ensures v.Countries? ==> forall i :: 0 <= i < |v.rows| ==>
      v.rows[i] == CountryRow(CountryName(data.value[i].country), CountryVisitors(data.value[i].visitors, number))
  {
    if data.None? || data.value == [] then NoCountryData
    else
      var d := data.value;
      Countries(seq(|d|, i requires 0 <= i < |d| =>
        CountryRow(CountryName(d[i].country), CountryVisitors(d[i].visitors, number))))
  }

  /** Only the exact lower-case "unknown" is renamed. */
  lemma CountryNameCases()
    ensures CountryName("unknown") == "Unknown"
    ensures CountryName("Unknown") == "Unknown"
    ensures CountryName("UNKNOWN") == "UNKNOWN"
  {
  }

  /** The five fills of the device chart. */
  const Palette: seq<string> := ["#f54900", "#009689", "#104e64", "#ffb900", "#fe9a00"]

  /** The fill of device slice `i`. */
  function DeviceColour(i: nat): (c: string)
    ensures 0 <= i % |Palette| < |Palette| && c == Palette[i % |Palette|]
  {
    Palette[i % 5]
  }

  /** The fills of all slices, one per device record. */
  function DeviceColours(devices: seq<DeviceRecord>): (cs: seq<string>)
    ensures |cs| == |devices|
    ensures forall i :: 0 <= i < |cs| ==> cs[i] in Palette && cs[i] == DeviceColour(i)
  {
    seq(|devices|, i requires 0 <= i < |devices| => DeviceColour(i))
  }

  /** The palette's entries are distinct. */
  lemma PaletteDistinct()
    ensures forall a, b :: 0 <= a < b < |Palette| ==> Palette[a] != Palette[b]
  {
    assert Palette[0][1] == 'f' && Palette[0][2] == '5';
    assert Palette[1][1] == '0' && Palette[1][2] == '0';
    assert Palette[2][1] == '1' && Palette[2][2] == '0';
    assert Palette[3][1] == 'f' && Palette[3][2] == 'f';
    assert Palette[4][1] == 'f' && Palette[4][2] == 'e';
  }

  /** Consecutive slices never share a colour, and the colours repeat every
      five slices. */
  lemma {:induction false} NeighboursDiffer(i: nat)
    ensures DeviceColour(i) != DeviceColour(i + 1)
    ensures DeviceColour(i) == DeviceColour(i + 5)
  {
    PaletteDistinct();
    var k := i % 5;
    if k == 4 {
      assert (i + 1) % 5 == 0;
    } else {
      assert (i + 1) % 5 == k + 1;
    }
    assert (i + 5) % 5 == k;
  }

  /** The pie is a full circle, so its last slice touches its first: among
      `n >= 2` slices those two share a colour exactly when `n - 1` is a
      multiple of five (six slices, eleven, ...). */
  lemma {:induction false} WrapAroundClash(n: nat)
    requires n >= 2
    ensures DeviceColour(n - 1) == DeviceColour(0) <==> (n - 1) % 5 == 0
  {
    PaletteDistinct();
    var k := (n - 1) % 5;
    assert DeviceColour(n - 1) == Palette[k] && DeviceColour(0) == Palette[0];
    if k != 0 {
      assert Palette[0] != Palette[k];
    }
  }
}
