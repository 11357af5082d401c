/**
 * The query layer of the climate API: the one-year window anchored at the
 * latest measurement, and the handlers of `/api/v1.0/precipitation`,
 * `/api/v1.0/stations`, `/api/v1.0/tobs`, `/api/v1.0/<start>` and
 * `/api/v1.0/<start>/<end>`. The database is the sequence of its rows; each
 * handler runs its query on it and builds the list of dicts it returns.
 */
module ClimateApp {
  import opened Wrappers
  import opened Lexical
  import opened Dates
  import opened Store
  import opened Json
  import opened Seqs

  /** The exceptions a request can end in. */
  datatype Error =
    | NoData               // `lastdate[0]` on the None an empty table gives
    | InvalidDate(text: string)  // ValueError from strptime
    | DateOutOfRange       // OverflowError from `lastdate - timedelta(days=365)`

  /** What `/api/v1.0/<start>/<end>` returns: a plain message or a JSON list. */
  datatype Reply = Message(text: string) | Records(objects: seq<Object>)

  const EndBeforeStart := "The end date must be on or after the start date."

  const WindowDays := 365

  // ------------------------------------------------------------ the window

  /**
   * `lastdate`: the date of the first row of `ORDER BY date DESC`, parsed.
   * An empty table fails, and so does a text-latest date strptime rejects.
   */
  function LastDate(ms: seq<Measurement>): (r: Result<Date, Error>)
    ensures r == Err(NoData) <==> ms == []
    ensures r.Ok? ==> Valid(r.value)
    ensures r.Ok? ==> exists i | 0 <= i < |ms| ::
      Parse(ms[i].date) == Some(r.value) && forall j | 0 <= j < |ms| :: AtMost(ms[j].date, ms[i].date)
    ensures r.Err? && ms != [] ==> exists i | 0 <= i < |ms| ::
      r == Err(InvalidDate(ms[i].date)) && Parse(ms[i].date).None?
      && forall j | 0 <= j < |ms| :: AtMost(ms[j].date, ms[i].date)
  {
    match LatestDate(ms)
    case None => Err(NoData)
    case Some(text) =>
      match Parse(text)
      case None => Err(InvalidDate(text))
      case Some(d) => Ok(d)
  }

  /** `yearago = lastdate - timedelta(days=365)`. */
  function YearAgo(ms: seq<Measurement>): (r: Result<Date, Error>)
    ensures LastDate(ms).Err? ==> r == LastDate(ms)
    ensures LastDate(ms).Ok? ==>
      if Ordinal(LastDate(ms).value) > WindowDays
      then r.Ok? && Valid(r.value) && Ordinal(r.value) == Ordinal(LastDate(ms).value) - WindowDays
      else r == Err(DateOutOfRange)
  {
    match LastDate(ms)
    case Err(e) => Err(e)
    case Ok(last) =>
      SubDaysOrdinal(last, WindowDays);
      match SubDays(last, WindowDays)
      case None => Err(DateOutOfRange)
      case Some(d) => Ok(d)
  }

  /** Every stored date is canonical ISO text, as the dataset's are. */
  predicate AllCanonical(ms: seq<Measurement>) {
    forall i | 0 <= i < |ms| :: Canonical(ms[i].date)
  }

  /** On canonical dates, `lastdate` is a stored date and no stored date is later. */
  lemma LastDateIsLatest(ms: seq<Measurement>)
    requires AllCanonical(ms) && ms != []
    ensures LastDate(ms).Ok?
    ensures forall i | 0 <= i < |ms| :: Ordinal(Parse(ms[i].date).value) <= Ordinal(LastDate(ms).value)
  {
    var text := LatestDate(ms).value;
    var k :| 0 <= k < |ms| && ms[k].date == text;
    forall i | 0 <= i < |ms| ensures Ordinal(Parse(ms[i].date).value) <= Ordinal(LastDate(ms).value) {
      CanonicalOrder(text, ms[i].date);
    }
  }

  /** The ISO text of an optional upper bound. */
  function IsoBound(hi: Option<Date>): (r: Option<string>)
    requires hi.Some? ==> Valid(hi.value)
    ensures r.Some? <==> hi.Some?
  {
    match hi
    case None => None
    case Some(d) => Some(Iso(d))
  }

  /**
   * On canonical dates the text filter `date >= lo [AND date <= hi]` keeps
   * exactly the rows whose dates lie in the range in time.
   */
  lemma BoundsAreChronological(ms: seq<Measurement>, lo: Date, hi: Option<Date>)
    requires AllCanonical(ms) && Valid(lo) && (hi.Some? ==> Valid(hi.value))
    ensures forall i | 0 <= i < |ms| ::
      InBounds(ms[i].date, Iso(lo), IsoBound(hi)) <==>
        Ordinal(lo) <= Ordinal(Parse(ms[i].date).value)
        && (hi.Some? ==> Ordinal(Parse(ms[i].date).value) <= Ordinal(hi.value))
  {
    ParseIso(lo);
    if hi.Some? {
      ParseIso(hi.value);
    }
    forall i | 0 <= i < |ms| ensures
      InBounds(ms[i].date, Iso(lo), IsoBound(hi)) <==>
        Ordinal(lo) <= Ordinal(Parse(ms[i].date).value)
        && (hi.Some? ==> Ordinal(Parse(ms[i].date).value) <= Ordinal(hi.value))
    {
      CanonicalOrder(ms[i].date, Iso(lo));
      if hi.Some? {
        CanonicalOrder(Iso(hi.value), ms[i].date);
      }
    }
  }

  /** The rows of the last twelve months: `date >= yearago`, in storage order. */
  function Window(ms: seq<Measurement>): (r: seq<Measurement>)
    requires YearAgo(ms).Ok?
    ensures forall m :: m in r <==> m in ms && AtMost(Iso(YearAgo(ms).value), m.date)
  {
    SelectMembers(ms, Iso(YearAgo(ms).value), None);
    Select(ms, Iso(YearAgo(ms).value), None)
  }

  /**
   * On ISO dates the window is the last year in time: a stored row is in it
   * exactly when its date is at most 365 days before `lastdate`.
   */
  lemma WindowIsLastYear(ms: seq<Measurement>)
    requires AllCanonical(ms) && YearAgo(ms).Ok?
    ensures forall i | 0 <= i < |ms| ::
      ms[i] in Window(ms) <==> Ordinal(LastDate(ms).value) - WindowDays <= Ordinal(Parse(ms[i].date).value)
  {
    BoundsAreChronological(ms, YearAgo(ms).value, None);
  }

  // ------------------------------------------------------------ the objects

  /** `{date: prcp}`: the row's date is the only key. */
  function PrcpObject(m: Measurement): Object {
    [(m.date, Nullable(m.prcp))]
  }

  /** The one key of a single-key object. */
  function SoleKey(o: Object): string {
    if o == [] then "" else o[0].0
  }

  function DateOf(m: Measurement): string {
    m.date
  }

  /** `{"id", "station", "name", "latitude", "longitude", "elevation"}`, in that order. */
  function StationObject(s: Station): Object {
    [("id", Int(s.id)), ("station", Text(s.station)), ("name", Text(s.name)),
     ("latitude", Number(s.latitude)), ("longitude", Number(s.longitude)),
     ("elevation", Number(s.elevation))]
  }

  /** `{"date", "station", "tobs"}`, in that order. */
  function TobsObject(m: Measurement): Object {
    [("date", Text(m.date)), ("station", Text(m.station)), ("tobs", Nullable(m.tobs))]
  }

  /** The text under `"date"` in a tobs object. */
  function DateField(o: Object): string {
    match Lookup(o, "date")
    case Some(Text(s)) => s
    case _ => ""
  }

  lemma TobsObjectDate(m: Measurement)
    ensures DateField(TobsObject(m)) == m.date
  {
    assert Lookup(TobsObject(m), "date") == Some(Text(m.date));
  }

  /** `{"TMIN", "TAVG", "TMAX"}`, in that order. */
  function StatsObject(a: Aggregate): Object {
    [("TMIN", Nullable(a.tmin)), ("TAVG", Nullable(a.tavg)), ("TMAX", Nullable(a.tmax))]
  }

  // ------------------------------------------- the dicts the loops fill in

  /** The body of the loop in `stations()`: six keys assigned in turn to an empty dict. */
  method StationDict(s: Station) returns (entry: Object)
    ensures entry == StationObject(s)
  {
    entry := [];
    entry := Put(entry, "id", Int(s.id));
    assert entry == [("id", Int(s.id))];
    entry := Put(entry, "station", Text(s.station));
    assert entry == [("id", Int(s.id)), ("station", Text(s.station))];
    entry := Put(entry, "name", Text(s.name));
    assert entry == [("id", Int(s.id)), ("station", Text(s.station)), ("name", Text(s.name))];
    entry := Put(entry, "latitude", Number(s.latitude));
    assert entry == [("id", Int(s.id)), ("station", Text(s.station)), ("name", Text(s.name)),
                     ("latitude", Number(s.latitude))];
    entry := Put(entry, "longitude", Number(s.longitude));
    assert entry == [("id", Int(s.id)), ("station", Text(s.station)), ("name", Text(s.name)),
                     ("latitude", Number(s.latitude)), ("longitude", Number(s.longitude))];
    entry := Put(entry, "elevation", Number(s.elevation));
  }

  /** The body of the loop in `tempobs()`. */
  method TobsDict(m: Measurement) returns (entry: Object)
    ensures entry == TobsObject(m)
  {
    entry := [];
    entry := Put(entry, "date", Text(m.date));
    assert entry == [("date", Text(m.date))];
    entry := Put(entry, "station", Text(m.station));
    assert entry == [("date", Text(m.date)), ("station", Text(m.station))];
    entry := Put(entry, "tobs", Nullable(m.tobs));
  }

  /** The body of the loops in `tempstats_startonly()` and `tempstats_startend()`. */
  method StatsDict(a: Aggregate) returns (entry: Object)
    ensures entry == StatsObject(a)
  {
    entry := [];
    entry := Put(entry, "TMIN", Nullable(a.tmin));
    assert entry == [("TMIN", Nullable(a.tmin))];
    entry := Put(entry, "TAVG", Nullable(a.tavg));
    assert entry == [("TMIN", Nullable(a.tmin)), ("TAVG", Nullable(a.tavg))];
    entry := Put(entry, "TMAX", Nullable(a.tmax));
  }

  // ------------------------------------------------------------ the handlers

  /** The loop of `precipitation()`: one `{date: prcp}` dict per result row. */
  method PrcpObjects(results: seq<Measurement>) returns (data: seq<Object>)
    ensures |data| == |results|
    ensures forall i | 0 <= i < |results| :: data[i] == PrcpObject(results[i])
  {
    data := [];
    for n := 0 to |results|
      invariant |data| == n
      invariant forall i | 0 <= i < n :: data[i] == PrcpObject(results[i])
    {
      var entry: Object := [];
      entry := Put(entry, results[n].date, Nullable(results[n].prcp));
      data := data + [entry];
    }
  }

  /** The loop of `tempobs()`: one `{date, station, tobs}` dict per result row. */
  method TobsObjects(results: seq<Measurement>) returns (data: seq<Object>)
    ensures |data| == |results|
    ensures forall i | 0 <= i < |results| :: data[i] == TobsObject(results[i])
  {
    data := [];
    for n := 0 to |results|
      invariant |data| == n
      invariant forall i | 0 <= i < n :: data[i] == TobsObject(results[i])
    {
      var entry := TobsDict(results[n]);
      data := data + [entry];
    }
  }

  /**
   * `precipitation()`: one single-key `{date: prcp}` object per row of the
   * window, no other, in ascending date order; rows of one date stay
   * separate objects with the same key.
   */
  method Precipitation(ms: seq<Measurement>) returns (r: Result<seq<Object>, Error>)
    ensures YearAgo(ms).Err? ==> r == Err(YearAgo(ms).error)
    ensures YearAgo(ms).Ok? ==> r.Ok?
    ensures r.Ok? ==> multiset(r.value) == multiset(MapSeq(PrcpObject, Window(ms)))
    ensures r.Ok? ==> forall i | 0 <= i < |r.value| :: |r.value[i]| == 1
    ensures r.Ok? ==> forall i, j | 0 <= i < j < |r.value| :: AtMost(SoleKey(r.value[i]), SoleKey(r.value[j]))
  {
    if YearAgo(ms).Err? {
      return Err(YearAgo(ms).error);
    }
    var results := OrderByDate(Window(ms));
    var data := PrcpObjects(results);
    assert multiset(data) == multiset(MapSeq(PrcpObject, Window(ms))) by {
      assert data == MapSeq(PrcpObject, results);
      MapSeqPermutation(PrcpObject, results, Window(ms));
    }
    return Ok(data);
  }

  /**
   * What the precipitation list says about dates: its keys are, counted with
   * repetition, exactly the dates of the window's rows. No two rows are merged
   * into one entry, and none is added.
   */
  lemma PrecipitationKeys(ms: seq<Measurement>, data: seq<Object>)
    requires YearAgo(ms).Ok?
    requires multiset(data) == multiset(MapSeq(PrcpObject, Window(ms)))
    ensures multiset(MapSeq(SoleKey, data)) == multiset(MapSeq(DateOf, Window(ms)))
    ensures forall i | 0 <= i < |data| :: AtMost(Iso(YearAgo(ms).value), SoleKey(data[i]))
  {
    var lo := Iso(YearAgo(ms).value);
    var w := Window(ms);
    SoleKeysAreDates(w, data);
    SelectMembers(ms, lo, None);
    forall i | 0 <= i < |data| ensures AtMost(lo, SoleKey(data[i])) {
      var k :| 0 <= k < |w| && SoleKey(data[i]) == w[k].date;
      assert w[k] in w;
    }
  }

  /** The keys of the single-key objects built from `rows` are the rows' dates. */
  lemma SoleKeysAreDates(rows: seq<Measurement>, data: seq<Object>)
    requires multiset(data) == multiset(MapSeq(PrcpObject, rows))
    ensures multiset(MapSeq(SoleKey, data)) == multiset(MapSeq(DateOf, rows))
    ensures forall i | 0 <= i < |data| :: exists k | 0 <= k < |rows| :: SoleKey(data[i]) == rows[k].date
  {
    var objects := MapSeq(PrcpObject, rows);
    MapSeqPermutation(SoleKey, data, objects);
    assert forall j | 0 <= j < |rows| :: objects[j] == PrcpObject(rows[j]) && SoleKey(objects[j]) == rows[j].date;
    assert MapSeq(SoleKey, objects) == MapSeq(DateOf, rows);
    forall i | 0 <= i < |data| ensures exists k | 0 <= k < |rows| :: SoleKey(data[i]) == rows[k].date {
      assert data[i] in multiset(objects);
      var k :| 0 <= k < |objects| && objects[k] == data[i];
    }
    assert forall i | 0 <= i < |data| :: exists k | 0 <= k < |rows| :: SoleKey(data[i]) == rows[k].date;
  }

  /** `stations()`: one six-field object per station row, fields copied unchanged. */
  method Stations(stations: seq<Station>) returns (data: seq<Object>)
    ensures |data| == |stations|
    ensures forall i | 0 <= i < |stations| :: data[i] == StationObject(stations[i])
  {
    data := [];
    for n := 0 to |stations|
      invariant |data| == n
      invariant forall i | 0 <= i < n :: data[i] == StationObject(stations[i])
    {
      var s := stations[n];
      var entry := StationDict(s);
      data := data + [entry];
    }
  }

  /**
   * `tempobs()`: one `{date, station, tobs}` object per row of the window, no
   * other, fields copied unchanged, in ascending date order.
   */
  method TemperatureObservations(ms: seq<Measurement>) returns (r: Result<seq<Object>, Error>)
    ensures YearAgo(ms).Err? ==> r == Err(YearAgo(ms).error)
    ensures YearAgo(ms).Ok? ==> r.Ok?
    ensures r.Ok? ==> multiset(r.value) == multiset(MapSeq(TobsObject, Window(ms)))
    ensures r.Ok? ==> forall i, j | 0 <= i < j < |r.value| :: AtMost(DateField(r.value[i]), DateField(r.value[j]))
  {
    if YearAgo(ms).Err? {
      return Err(YearAgo(ms).error);
    }
    var results := OrderByDate(Window(ms));
    var data := TobsObjects(results);
    assert multiset(data) == multiset(MapSeq(TobsObject, Window(ms))) by {
      assert data == MapSeq(TobsObject, results);
      MapSeqPermutation(TobsObject, results, Window(ms));
    }
    assert forall i, j | 0 <= i < j < |data| :: AtMost(DateField(data[i]), DateField(data[j])) by {
      forall i | 0 <= i < |data| ensures DateField(data[i]) == results[i].date {
        TobsObjectDate(results[i]);
      }
    }
    return Ok(data);
  }

  /** The loop over the one row an aggregate query returns. */
  method StatsObjects(results: seq<Aggregate>) returns (data: seq<Object>)
    ensures |data| == |results|
    ensures forall i | 0 <= i < |results| :: data[i] == StatsObject(results[i])
  {
    data := [];
    for n := 0 to |results|
      invariant |data| == n
      invariant forall i | 0 <= i < n :: data[i] == StatsObject(results[i])
    {
      var entry := StatsDict(results[n]);
      data := data + [entry];
    }
  }

  /**
   * `tempstats_startonly(start)`: an unparseable start is an error; otherwise
   * a list of exactly one `{TMIN, TAVG, TMAX}` object over `date >= start`.
   */
  method TemperatureStatsFrom(ms: seq<Measurement>, start: string) returns (r: Result<seq<Object>, Error>)
    ensures Parse(start).None? <==> r == Err(InvalidDate(start))
    ensures Parse(start).Some? ==>
      r.Ok? && |r.value| == 1
      && r.value[0] == StatsObject(TemperatureStats(ms, Iso(Parse(start).value), None))
  {
    var startdate := Parse(start);
    if startdate.None? {
      return Err(InvalidDate(start));
    }
    var data := StatsObjects([TemperatureStats(ms, Iso(startdate.value), None)]);
    return Ok(data);
  }

  /**
   * `tempstats_startend(start, end)`: the message exactly when `end < start`
   * as text, before either is parsed; then an unparseable start, then an
   * unparseable end, is an error; otherwise one `{TMIN, TAVG, TMAX}` object
   * over `start <= date <= end`.
   */
  method TemperatureStatsBetween(ms: seq<Measurement>, start: string, end: string) returns (r: Result<Reply, Error>)
    ensures r == Ok(Message(EndBeforeStart)) <==> Less(end, start)
    ensures !Less(end, start) && Parse(start).None? ==> r == Err(InvalidDate(start))
    ensures !Less(end, start) && Parse(start).Some? && Parse(end).None? ==> r == Err(InvalidDate(end))
    ensures !Less(end, start) && Parse(start).Some? && Parse(end).Some? ==>
      r.Ok? && r.value.Records? && |r.value.objects| == 1
      && r.value.objects[0]
         == StatsObject(TemperatureStats(ms, Iso(Parse(start).value), Some(Iso(Parse(end).value))))
  {
    if Less(end, start) {
      return Ok(Message(EndBeforeStart));
    }
    var startdate := Parse(start);
    if startdate.None? {
      return Err(InvalidDate(start));
    }
    var enddate := Parse(end);
    if enddate.None? {
      return Err(InvalidDate(end));
    }
    var data := StatsObjects([TemperatureStats(ms, Iso(startdate.value), Some(Iso(enddate.value)))]);
    return Ok(Records(data));
  }

  // ------------------------------------------------ the range check in time

  /**
   * For canonical ISO text the check `end < start` is the chronological
   * check: it passes exactly when the start date is on or before the end date.
   */
  lemma RangeCheckIsChronological(start: string, end: string)
    requires Canonical(start) && Canonical(end)
    ensures !Less(end, start) <==> Ordinal(Parse(start).value) <= Ordinal(Parse(end).value)
  {
    CanonicalOrder(end, start);
  }

  /**
   * Without zero padding the text check and time disagree: strptime accepts
   * `2017-8-3` and `2017-10-01`, the second is later in time, and yet it is
   * smaller as text, so the handler answers with the message.
   */
  lemma UnpaddedRangeIsRejected()
    ensures Parse("2017-8-3") == Some(Date(2017, 8, 3))
    ensures Parse("2017-10-01") == Some(Date(2017, 10, 1))
    ensures Precedes(Date(2017, 8, 3), Date(2017, 10, 1))
    ensures Less("2017-10-01", "2017-8-3")
  {
    ParseUnpadded();
    ParsePadded();
    var s, e := "2017-8-3", "2017-10-01";
    assert e == "2017-" + "10-01" && s == "2017-" + "8-3";
    LessConcat("2017-", "2017-", "10-01", "8-3");
    assert Less("10-01", "8-3");
  }

  lemma Year2017()
    ensures AllDigits("2017") && DigitsValue("2017") == 2017
  {
    assert "2017"[..3] == "201" && "201"[..2] == "20" && "20"[..1] == "2" && "2"[..0] == "";
  }

  lemma ParseUnpadded()
    ensures Parse("2017-8-3") == Some(Date(2017, 8, 3))
  {
    var s := "2017-8-3";
    Year2017();
    assert s == "2017" + "-" + "8-3";
    assert s[..4] == "2017" && s[4] == '-' && s[5..] == "8-3";
    assert MonthField("8-3") == Some((8, "3")) by {
      assert "8-3"[2..] == "3";
    }
    assert DayField("3") == Some(3);
  }

  lemma ParsePadded()
    ensures Parse("2017-10-01") == Some(Date(2017, 10, 1))
  {
    var s := "2017-10-01";
    Year2017();
    assert s == "2017" + "-" + "10-01";
    assert s[..4] == "2017" && s[4] == '-' && s[5..] == "10-01";
    assert MonthField("10-01") == Some((10, "01")) by {
      assert "10-01"[3..] == "01";
    }
    assert DayField("01") == Some(1);
  }
}
