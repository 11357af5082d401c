# Climate API query layer, in Dafny

`climate_app.py` is a small Flask service over the Hawaii weather database.
That database has a `measurement` table, with date text, station, precipitation
and temperature observation, and a `station` table. The service computes these:

- **The window.** At start-up it reads the latest measurement date
  (`lastdate`), parses it with `strptime('%Y-%m-%d')` and subtracts 365 days
  (`yearago`).
- **`/api/v1.0/precipitation`.** A list of `{date: prcp}` objects for the rows
  with `date >= yearago`, in date order.
- **`/api/v1.0/stations`.** One `{id, station, name, latitude, longitude,
  elevation}` object per station.
- **`/api/v1.0/tobs`.** A list of `{date, station, tobs}` objects for the same
  window, in date order.
- **`/api/v1.0/<start>`.** One `{TMIN, TAVG, TMAX}` object over the rows from
  `start` on.
- **`/api/v1.0/<start>/<end>`.** The same, over `start <= date <= end`. But if
  `end < start` as strings, the reply is the plain message "The end date must
  be on or after the start date.".

This project models that query layer:

- **Tables.** The database is a sequence of `Measurement` rows and a sequence
  of `Station` rows.
- **Calendar (`Dates`).** Proleptic Gregorian dates, day ordinals, the day
  before and `- timedelta(days=n)`. It also has the exact `%Y-%m-%d` parser
  and ISO text, with their round trip and order lemmas.
- **String order (`Lexical`).** Code-point string order. It is the order of
  SQLite's text comparison and of Python's `str <`.
- **Queries (`Store`).** The queries as specification functions:
  - the `date` filter keeps exactly the rows in range;
  - `ORDER BY date` gives a date-sorted permutation;
  - `ORDER BY date DESC LIMIT 1` gives the text-latest date;
  - `MIN`/`AVG`/`MAX` work over the non-NULL `tobs`.
- **Objects (`Json`).** Python dicts as insertion-ordered key/value lists, and
  `d[k] = v` on them.
- **Handlers (`ClimateApp`).** Each handler's loop that builds the result list
  is a method with loop invariants. It is proved against the functions above.

The source's error outcomes are `Err` values of `ClimateApp.Error`:

- an empty table when `lastdate[0]` is read;
- a `ValueError` from `strptime`;
- an `OverflowError` from subtracting 365 days.

In `/api/v1.0/<start>/<end>` the code compares `end < start` as text first,
and only then parses `start` and `end`. So a malformed date never
yields an error when `end < start` holds as text.

## Model

| member | source | states |
|---|---|---|
| Store.LatestDate | climate_app.py:36-37 | `ORDER BY date DESC` first row: none exactly for an empty table, otherwise a stored date that no stored date exceeds as text |
| ClimateApp.LastDate | climate_app.py:36-38 | `NoData` exactly for an empty table; otherwise a valid date parsed from the text-latest stored date, or `InvalidDate` naming that date when strptime rejects it |
| ClimateApp.LastDateIsLatest | climate_app.py:36-39 | with ISO dates in the table, `lastdate` is found and is chronologically on or after every stored date |
| ClimateApp.YearAgo | climate_app.py:39 | `lastdate - 365 days`: errors of `lastdate` pass through; otherwise a valid date whose ordinal is 365 lower, or `DateOutOfRange` exactly when that would precede 0001-01-01 |
| Dates.SubDays | climate_app.py:39 | subtracting days from a valid date yields a valid date or fails |
| Dates.SubDaysOrdinal | climate_app.py:39 | `d - n days` succeeds exactly when `n < Ordinal(d)`, and then lowers the ordinal by exactly `n` |
| Dates.PrevDay | climate_app.py:39 | the day before a valid date other than 0001-01-01 is valid and has ordinal one lower |
| Dates.OrdinalOrder | climate_app.py:39 | the day ordinal is strictly increasing in calendar order (year, then month, then day) |
| Dates.DaysInMonth | climate_app.py:38 | the day bound strptime checks against: every month has 28 to 31 days |
| Dates.MonthField | climate_app.py:38 | `%m-` yields a month 1..12 whose spelling (two digits, or one digit below 10) is the text before the `-`, and the text after it |
| Dates.DayField | climate_app.py:38 | `%d` yields a day 1..31 only when the whole text is one of its spellings (two digits, or one digit below 10, alone or after a space) |
| Dates.MonthFieldReads | climate_app.py:38 | every spelling of a month followed by `-` is read back as that month, with the rest left over |
| Dates.DayFieldReads | climate_app.py:38 | every spelling of a day is read back as that day |
| Dates.Parse | climate_app.py:38 | `strptime(s, '%Y-%m-%d')` returns only valid calendar dates (year 1..9999, day within its month) |
| Dates.ParseSpells | climate_app.py:38 | the date strptime returns is spelled by the text: four digits of its year, `-`, a spelling of its month, `-`, a spelling of its day |
| Dates.SpellingsParse | climate_app.py:128 | every spelling of a valid date is read as exactly that date |
| Dates.ParseSpellings | climate_app.py:155-156 | strptime reads `s` as `d` exactly when `d` is a valid date and `s` spells it, so it never coerces text into another date |
| Dates.NoSuchDayRefused | climate_app.py:38 | `2017-02-30` is refused, not moved to another date |
| Dates.Iso | climate_app.py:68 | the text a `date` bound has when it is compared with the TEXT column: ten characters, zero-padded `YYYY-MM-DD` (ParseIso and IsoOrder give its meaning) |
| Dates.ParseIso | climate_app.py:128-131 | parsing the ISO text of a valid date returns that date, and ISO text is canonical, so the bound the filter compares against is the parsed date |
| Dates.IsoOrder | climate_app.py:68 | comparing ISO texts as strings is comparing their dates in calendar order |
| Dates.CanonicalOrder | climate_app.py:155-156 | on canonical date text, string order is ordinal order and string equality is date equality |
| Store.InBounds | climate_app.py:159-160 | the WHERE predicate: `date >= lo`, and `date <= hi` when there is an upper bound, both as text comparisons |
| Store.Select | climate_app.py:67-68 | the `date >= lo [AND date <= hi]` filter keeps each row in range as often as stored and drops every other row |
| Store.SelectMembers | climate_app.py:107-109 | a row is in the filtered result exactly when it is stored and its date is in range |
| ClimateApp.Window | climate_app.py:107-109 | the `date >= yearago` filter: a row is in the window exactly when it is stored and its date is at least the ISO text of `yearago` |
| ClimateApp.WindowIsLastYear | climate_app.py:36-39 | with ISO dates in the table, a stored row is in the window exactly when its date is at most 365 days before `lastdate` |
| ClimateApp.BoundsAreChronological | climate_app.py:157-160 | with ISO dates in the table, the text filter keeps exactly the rows whose dates lie between the bounds in time |
| Store.Insert | climate_app.py:69 | inserting into a date-sorted list keeps it sorted and adds exactly that row |
| Store.OrderByDate | climate_app.py:110 | `ORDER BY date ASC` yields a permutation of its input that is sorted by date text |
| Store.TobsValues | climate_app.py:129-131 | the aggregates see every non-NULL `tobs` of the rows and no value that is not some row's `tobs` |
| Store.Least | climate_app.py:129 | `MIN` is one of the values and no value is smaller |
| Store.Greatest | climate_app.py:130 | `MAX` is one of the values and no value is larger |
| Store.SumBounds | climate_app.py:129 | values between `lo` and `hi` sum to between `n*lo` and `n*hi` |
| Store.MeanBetween | climate_app.py:129 | `AVG` of a non-empty list lies between its `MIN` and `MAX` |
| Store.Summarize | climate_app.py:129-130 | all three aggregates are NULL exactly for no values; otherwise TMIN and TMAX are attained bounds and TMIN <= TAVG <= TMAX |
| Store.CountedValues | climate_app.py:157-160 | the values aggregated are exactly the `tobs` of the stored rows in range that have one |
| Store.TemperatureStats | climate_app.py:157-160 | TMIN/TMAX are the least/greatest `tobs` among rows in range, TAVG lies between, all NULL exactly when no row in range has a `tobs` |
| Json.Put | climate_app.py:75 | `d[k] = v`: a new key is appended to the key order, an existing key keeps its place |
| Json.PutLookup | climate_app.py:92-97 | after `d[k] = v`, `d[k]` is `v` and every other key is unchanged |
| Json.PutKeepsKeysUnique | climate_app.py:116-118 | `d[k] = v` never creates a duplicate key |
| ClimateApp.PrcpObjects | climate_app.py:72-76 | the loop emits one `{date: prcp}` object per result row, in the rows' order, with NULL as `null` |
| ClimateApp.Precipitation | climate_app.py:63-78 | window errors pass through; otherwise the reply is a permutation of one `{date: prcp}` per row with `date >= yearago`, each a single key, keys non-decreasing |
| ClimateApp.PrecipitationKeys | climate_app.py:67-76 | the keys of the reply are exactly the dates of the windowed rows, with multiplicity, and none is before `yearago` |
| ClimateApp.SoleKeysAreDates | climate_app.py:72-76 | any reordering of the per-row objects has as keys the rows' dates, with multiplicity |
| ClimateApp.StationDict | climate_app.py:91-97 | six assignments build `{id, station, name, latitude, longitude, elevation}` in that key order |
| ClimateApp.Stations | climate_app.py:81-100 | exactly one six-field object per station row, in storage order |
| ClimateApp.TobsDict | climate_app.py:115-118 | three assignments build `{date, station, tobs}` in that key order |
| ClimateApp.TobsObjects | climate_app.py:113-119 | the loop emits one `{date, station, tobs}` object per result row, in the rows' order |
| ClimateApp.TobsObjectDate | climate_app.py:116 | the `date` field of a row's object is the row's date |
| ClimateApp.TemperatureObservations | climate_app.py:103-121 | window errors pass through; otherwise a permutation of one `{date, station, tobs}` per row with `date >= yearago`, non-decreasing by `date` |
| ClimateApp.StatsDict | climate_app.py:136-139 | three assignments build `{TMIN, TAVG, TMAX}` in that key order |
| ClimateApp.StatsObjects | climate_app.py:134-140 | the loop emits one `{TMIN, TAVG, TMAX}` object per aggregate row |
| ClimateApp.TemperatureStatsFrom | climate_app.py:124-142 | `InvalidDate(start)` exactly when strptime rejects `start`; otherwise exactly one object holding the aggregates over `date >= start` |
| ClimateApp.TemperatureStatsBetween | climate_app.py:145-171 | the message exactly when `end < start` as text; otherwise `InvalidDate` for start, then for end; otherwise one object with the aggregates over `start <= date <= end` |
| ClimateApp.RangeCheckIsChronological | climate_app.py:150 | for canonical ISO text, `end < start` fails exactly when the start date is on or before the end date |
| ClimateApp.UnpaddedRangeIsRejected | climate_app.py:150-156 | strptime accepts `2017-8-3` and `2017-10-01`, the first is earlier in time, yet `"2017-10-01" < "2017-8-3"` as text, so that range gets the message |
| ClimateApp.ParseUnpadded | climate_app.py:155 | `strptime('2017-8-3')` is 3 August 2017 |
| ClimateApp.ParsePadded | climate_app.py:156 | `strptime('2017-10-01')` is 1 October 2017 |
| Lexical.Less | climate_app.py:150 | Python's `end < start` on two strings, and SQLite's TEXT comparison in the filters at lines 68, 109, 131 and 159-160: character codes compared left to right, a proper prefix being smaller |
| Lexical.LessIsFirstDifference | climate_app.py:131 | `a < b` exactly when the strings agree up to some position where `a` has ended and `b` has not, or `a` has the smaller character |
| Lexical.LessIrreflexive | climate_app.py:150 | no string is less than itself |
| Lexical.LessAsymmetric | climate_app.py:150 | `a < b` and `b < a` never both hold |
| Lexical.LessTransitive | climate_app.py:150 | string order is transitive |
| Lexical.LessTotal | climate_app.py:150 | any two strings are equal or ordered one way |
| Lexical.AtMostTransitive | climate_app.py:69 | `<=` on strings is transitive, strictly when one step is strict |

## Left out

- `home()` (climate_app.py:50-60) returns a constant HTML string with no logic to model.
- Flask routing, `jsonify`, HTTP status codes and `JSON_SORT_KEYS` (climate_app.py:44-45, 178-179) are not modelled. A reply is the list of objects `jsonify` would serialise, in key insertion order.
- The SQLAlchemy engine, automap reflection, the scoped session and its teardown (climate_app.py:21-33, 174-176) are not modelled. The tables are passed in as sequences.
- Errors are `Err` values of `ClimateApp.Error`, not exceptions or HTTP 500 replies.
- The window is computed from the table on each call. The source computes it once at import (climate_app.py:36-39). The two agree while the table is unchanged and the window can be computed. When it cannot, the source never loads and no endpoint answers. That happens for an empty table (TypeError on `None[0]`), a latest date strptime rejects (ValueError) and a latest date in year 1 (OverflowError). In those cases the model's `Stations`, `TemperatureStatsFrom` and `TemperatureStatsBetween` still give normal replies. Only `Precipitation` and `TemperatureObservations` return the window's error.
- ClimateApp.Precipitation, ClimateApp.TemperatureObservations: rows that share a date may come in any order. SQLite's order among them is not modelled, so the contracts promise a date-sorted permutation of the rows.
- Store.Summarize: TAVG is the exact real mean. Floating-point rounding of SQLite's `AVG` is not modelled. So TMIN <= TAVG <= TMAX is proved of that exact mean, not of SQLite's doubles. In doubles, `AVG` over three `tobs` of 0.1 is 0.10000000000000002, above `MAX` = 0.1.
- Dates.Parse: dates are read from ASCII digits only. The Unicode decimal digits that Python's `\d` also accepts are not modelled.
- NULL dates and NULL text columns are not modelled. `date`, `station` and `name` are always strings, and the station numbers always numbers.
