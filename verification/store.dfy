/**
 * The two tables the handlers read, `measurement` and `station`, and the
 * meaning of the SQL the handlers send: the `date` filters, `ORDER BY date`,
 * the latest date, and `MIN`/`AVG`/`MAX` over `tobs`. Dates are stored as
 * TEXT, so every comparison on `date` is a comparison of strings; a bound
 * given as a Python date reaches the database as its ISO text.
 */
module Store {
  import opened Wrappers
  import opened Lexical

  /** A `measurement` row: `prcp` and `tobs` may be NULL. */
  datatype Measurement = Measurement(date: string, station: string, prcp: Option<real>, tobs: Option<real>)

  /** A `station` row. */
  datatype Station = Station(id: int, station: string, name: string, latitude: real, longitude: real, elevation: real)

  /** `date >= lo`, and `date <= hi` when an upper bound is given. */
  predicate InBounds(date: string, lo: string, hi: Option<string>) {
    AtMost(lo, date) && (hi.None? || AtMost(date, hi.value))
  }

  // ------------------------------------------------------------- WHERE date

  /** The rows the `date` filter keeps, each as often as it is stored, no others. */
  function Select(ms: seq<Measurement>, lo: string, hi: Option<string>): (r: seq<Measurement>)
    ensures |r| <= |ms|
    ensures forall m :: multiset(r)[m] == if InBounds(m.date, lo, hi) then multiset(ms)[m] else 0
  {
    if ms == [] then []
    else
      var rest := Select(ms[1..], lo, hi);
      assert ms == [ms[0]] + ms[1..];
      assert multiset(ms) == multiset{ms[0]} + multiset(ms[1..]);
      if InBounds(ms[0].date, lo, hi) then [ms[0]] + rest else rest
  }

  lemma SelectMembers(ms: seq<Measurement>, lo: string, hi: Option<string>)
    ensures forall m :: m in Select(ms, lo, hi) <==> m in ms && InBounds(m.date, lo, hi)
  {
    var r := Select(ms, lo, hi);
    forall m ensures m in r <==> m in ms && InBounds(m.date, lo, hi) {
      assert m in r <==> m in multiset(r);
      assert m in ms <==> m in multiset(ms);
    }
  }

  // -------------------------------------------------------- ORDER BY date ASC

  predicate SortedByDate(rows: seq<Measurement>) {
    forall i, j | 0 <= i < j < |rows| :: AtMost(rows[i].date, rows[j].date)
  }

  /**
   * What `ORDER BY date ASC` may return for `rows`: the same rows, date order;
   * the order among rows of one date is not fixed.
   */
  predicate DateOrdering(result: seq<Measurement>, rows: seq<Measurement>) {
    SortedByDate(result) && multiset(result) == multiset(rows)
  }

  /** A row no later than the first of a sorted list may go in front of it. */
  lemma PrependSorted(x: Measurement, rows: seq<Measurement>)
    requires SortedByDate(rows)
    requires rows != [] ==> AtMost(x.date, rows[0].date)
    ensures SortedByDate([x] + rows)
  {
    forall k | 0 <= k < |rows| ensures AtMost(x.date, rows[k].date) {
      LessIrreflexive(rows[0].date);
      AtMostTransitive(x.date, rows[0].date, rows[k].date);
    }
    assert forall j | 1 <= j < |rows| + 1 :: ([x] + rows)[j] == rows[j - 1];
  }

  function Insert(m: Measurement, rows: seq<Measurement>): (r: seq<Measurement>)
    requires SortedByDate(rows)
    ensures SortedByDate(r)
    ensures multiset(r) == multiset(rows) + multiset{m}
  {
    if rows == [] || Less(m.date, rows[0].date) then
      assert rows != [] ==> AtMost(m.date, rows[0].date) by {
        if rows != [] {
          LessAsymmetric(m.date, rows[0].date);
        }
      }
      PrependSorted(m, rows);
      [m] + rows
    else
      var t := Insert(m, rows[1..]);
      assert rows == [rows[0]] + rows[1..];
      assert AtMost(rows[0].date, t[0].date) by {
        assert t[0] in multiset(t);
        if t[0] == m {
          LessTotal(m.date, rows[0].date);
          if Less(rows[0].date, m.date) {
            LessAsymmetric(rows[0].date, m.date);
          }
        } else {
          assert t[0] in rows[1..];
          LessIrreflexive(rows[0].date);
        }
      }
      PrependSorted(rows[0], t);
      [rows[0]] + t
  }

  /** One ordering the database may choose: insertion sort. */
  function OrderByDate(rows: seq<Measurement>): (r: seq<Measurement>)
    ensures DateOrdering(r, rows)
  {
    if rows == [] then []
    else
      assert rows == [rows[0]] + rows[1..];
      Insert(rows[0], OrderByDate(rows[1..]))
  }

  // ---------------------------------------------- ORDER BY date DESC, first

  /** Every stored date is at most `d`. */
  lemma RaiseBound(ms: seq<Measurement>, d: string, e: string)
    requires forall i | 0 <= i < |ms| :: AtMost(ms[i].date, d)
    requires AtMost(d, e)
    ensures forall i | 0 <= i < |ms| :: AtMost(ms[i].date, e)
  {
    forall i | 0 <= i < |ms| ensures AtMost(ms[i].date, e) {
      AtMostTransitive(ms[i].date, d, e);
    }
  }

  /**
   * The date of the first row of `ORDER BY date DESC`: a stored date that no
   * stored date exceeds, or None for an empty table.
   */
  function LatestDate(ms: seq<Measurement>): (r: Option<string>)
    ensures r.None? <==> ms == []
    ensures r.Some? ==> exists i | 0 <= i < |ms| :: ms[i].date == r.value
    ensures r.Some? ==> forall i | 0 <= i < |ms| :: AtMost(ms[i].date, r.value)
  {
    if ms == [] then None
    else
      match LatestDate(ms[1..])
      case None => LessIrreflexive(ms[0].date); Some(ms[0].date)
      case Some(d) =>
        assert forall i | 1 <= i < |ms| :: ms[i] == ms[1..][i - 1];
        if Less(d, ms[0].date) then
          LessAsymmetric(d, ms[0].date);
          LessIrreflexive(ms[0].date);
          RaiseBound(ms[1..], d, ms[0].date);
          assert forall i | 1 <= i < |ms| :: AtMost(ms[i].date, ms[0].date);
          Some(ms[0].date)
        else
          assert forall i | 1 <= i < |ms| :: AtMost(ms[i].date, d);
          assert exists i | 1 <= i < |ms| :: ms[i].date == d;
          Some(d)
  }

  // ------------------------------------------------------ MIN, AVG, MAX

  /** The non-NULL `tobs` values of `rows`, in row order: what SQL aggregates over. */
  function TobsValues(rows: seq<Measurement>): (vs: seq<real>)
    ensures |vs| <= |rows|
    ensures forall i | 0 <= i < |rows| && rows[i].tobs.Some? :: rows[i].tobs.value in vs
    ensures forall v | v in vs :: exists i | 0 <= i < |rows| :: rows[i].tobs == Some(v)
  {
    if rows == [] then []
    else
      var rest := TobsValues(rows[1..]);
      assert forall i | 1 <= i < |rows| :: rows[i] == rows[1..][i - 1];
      match rows[0].tobs
      case None => rest
      case Some(t) => [t] + rest
  }

  function Least(vs: seq<real>): (m: real)
    requires vs != []
    ensures m in vs && forall v | v in vs :: m <= v
  {
    if |vs| == 1 then vs[0]
    else
      var rest := Least(vs[1..]);
      assert forall v | v in vs :: v == vs[0] || v in vs[1..];
      if vs[0] <= rest then vs[0] else rest
  }

  function Greatest(vs: seq<real>): (m: real)
    requires vs != []
    ensures m in vs && forall v | v in vs :: v <= m
  {
    if |vs| == 1 then vs[0]
    else
      var rest := Greatest(vs[1..]);
      assert forall v | v in vs :: v == vs[0] || v in vs[1..];
      if rest <= vs[0] then vs[0] else rest
  }

  function Sum(vs: seq<real>): real {
    if vs == [] then 0.0 else vs[0] + Sum(vs[1..])
  }

  /** `AVG`, taken as the exact mean (SQL computes it in floating point). */
  function Mean(vs: seq<real>): real
    requires vs != []
  {
    Sum(vs) / |vs| as real
  }

  /** `x` added to itself `n` times. */
  function Times(n: nat, x: real): real {
    if n == 0 then 0.0 else x + Times(n - 1, x)
  }

  lemma {:induction false} TimesIsProduct(n: nat, x: real)
    ensures Times(n, x) == n as real * x
  {
    if n > 0 {
      TimesIsProduct(n - 1, x);
      assert n as real * x == (n - 1) as real * x + x;
    }
  }

  /** A sum of `n` values between `lo` and `hi` lies between `n` times each. */
  lemma {:induction false} SumBounds(vs: seq<real>, lo: real, hi: real)
    requires forall v | v in vs :: lo <= v <= hi
    ensures Times(|vs|, lo) <= Sum(vs) <= Times(|vs|, hi)
  {
    if vs != [] {
      var rest := vs[1..];
      assert forall v | v in rest :: v in vs;
      SumBounds(rest, lo, hi);
      assert vs[0] in vs;
    }
  }

  /** The mean lies between the least and the greatest value. */
  lemma MeanBetween(vs: seq<real>)
    requires vs != []
    ensures Least(vs) <= Mean(vs) <= Greatest(vs)
  {
    SumBounds(vs, Least(vs), Greatest(vs));
    DivideBounds(|vs|, Sum(vs), Least(vs), Greatest(vs));
  }

  /** A sum between `n` times `lo` and `n` times `hi`, divided by `n`, lies between `lo` and `hi`. */
  lemma DivideBounds(n: nat, s: real, lo: real, hi: real)
    requires n > 0 && Times(n, lo) <= s <= Times(n, hi)
    ensures lo <= s / n as real <= hi
  {
    TimesIsProduct(n, lo);
    TimesIsProduct(n, hi);
    QuotientBounds(n as real, s, lo, hi, Times(n, lo), Times(n, hi));
  }

  lemma QuotientBounds(m: real, s: real, lo: real, hi: real, a: real, b: real)
    requires m > 0.0 && a == m * lo && b == m * hi && a <= s <= b
    ensures lo <= s / m <= hi
  {
    assert s / m - lo == (s - a) / m;
    assert hi - s / m == (b - s) / m;
  }

  /** One result row of `SELECT MIN(tobs), AVG(tobs), MAX(tobs)`. */
  datatype Aggregate = Aggregate(tmin: Option<real>, tavg: Option<real>, tmax: Option<real>)

  /** The aggregates over a list of non-NULL values: all NULL when there is none. */
  function Summarize(vs: seq<real>): (a: Aggregate)
    ensures a.tmin.None? <==> vs == []
    ensures a.tavg.None? <==> vs == []
    ensures a.tmax.None? <==> vs == []
    ensures a.tmin.Some? ==> a.tmin.value in vs && forall v | v in vs :: a.tmin.value <= v
    ensures a.tmax.Some? ==> a.tmax.value in vs && forall v | v in vs :: v <= a.tmax.value
    ensures a.tmin.Some? ==> a.tmin.value <= a.tavg.value <= a.tmax.value
  {
    if vs == [] then Aggregate(None, None, None)
    else
      MeanBetween(vs);
      Aggregate(Some(Least(vs)), Some(Mean(vs)), Some(Greatest(vs)))
  }

  /** A row that `MIN(tobs)` and `MAX(tobs)` see under the `date` filter. */
  predicate Counted(m: Measurement, lo: string, hi: Option<string>) {
    InBounds(m.date, lo, hi) && m.tobs.Some?
  }

  /** The values the aggregates see are exactly the `tobs` of the counted rows. */
  lemma CountedValues(ms: seq<Measurement>, lo: string, hi: Option<string>)
    ensures forall i | 0 <= i < |ms| && Counted(ms[i], lo, hi) :: ms[i].tobs.value in TobsValues(Select(ms, lo, hi))
    ensures forall v | v in TobsValues(Select(ms, lo, hi)) ::
      exists i | 0 <= i < |ms| :: Counted(ms[i], lo, hi) && ms[i].tobs.value == v
  {
    var rows := Select(ms, lo, hi);
    var vs := TobsValues(rows);
    SelectMembers(ms, lo, hi);
    assert forall i | 0 <= i < |ms| && Counted(ms[i], lo, hi) :: ms[i] in rows;
    forall v | v in vs ensures exists i | 0 <= i < |ms| :: Counted(ms[i], lo, hi) && ms[i].tobs.value == v {
      var j :| 0 <= j < |rows| && rows[j].tobs == Some(v);
      assert rows[j] in rows;
      var i :| 0 <= i < |ms| && ms[i] == rows[j];
    }
  }

  /**
   * `SELECT MIN(tobs), AVG(tobs), MAX(tobs) FROM measurement WHERE date >= lo
   * [AND date <= hi]`: TMIN and TMAX are the least and greatest non-NULL
   * `tobs` of the rows in range, TAVG lies between them, and all three are
   * NULL when no row in range has a `tobs`.
   */
  function TemperatureStats(ms: seq<Measurement>, lo: string, hi: Option<string>): (a: Aggregate)
    ensures a.tmin.None? <==> forall i | 0 <= i < |ms| :: !Counted(ms[i], lo, hi)
    ensures a.tavg.None? <==> a.tmin.None?
    ensures a.tmax.None? <==> a.tmin.None?
    ensures a.tmin.Some? ==>
      (exists i | 0 <= i < |ms| :: Counted(ms[i], lo, hi) && ms[i].tobs.value == a.tmin.value)
      && forall i | 0 <= i < |ms| && Counted(ms[i], lo, hi) :: a.tmin.value <= ms[i].tobs.value
    ensures a.tmax.Some? ==>
      (exists i | 0 <= i < |ms| :: Counted(ms[i], lo, hi) && ms[i].tobs.value == a.tmax.value)
      && forall i | 0 <= i < |ms| && Counted(ms[i], lo, hi) :: ms[i].tobs.value <= a.tmax.value
    ensures a.tmin.Some? ==> a.tmin.value <= a.tavg.value <= a.tmax.value
  {
    CountedValues(ms, lo, hi);
    Summarize(TobsValues(Select(ms, lo, hi)))
  }
}
