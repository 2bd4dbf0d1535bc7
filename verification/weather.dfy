/** Monthly aggregation of weather readings with gap filling. Every month
    of the weather table's own range gets one bucket whose temperature is
    the mean of that month's readings; a month without readings carries the
    previous month's value forward, and months before the first reading
    are backfilled with the first observed mean. */
module WeatherAggregation {
  import opened Calendar
  import opened Tables
  import opened Windows

  datatype WeatherBucket = WeatherBucket(year: int, month: Month, quarter: Quarter, temperature: Option<real>)

  function ReadingAt(r: WeatherRow): Stamp
  {
    r.at
  }

  function BucketMonth(b: WeatherBucket): MonthStamp
  {
    MonthStamp(b.year, b.month)
  }

  /** Mean temperature of one (Year, Month); undefined without readings. */
  function MonthMean(rows: seq<WeatherRow>, m: MonthStamp): (t: Option<real>)
    ensures t.None? <==> forall i :: 0 <= i < |rows| ==> !InMonth(rows[i].at, rows[i].month, m)
  {
    FilterNone(rows, (r: WeatherRow) => InMonth(r.at, r.month, m));
    Mean(Column(Filter(rows, (r: WeatherRow) => InMonth(r.at, r.month, m)), Temperature))
  }

  /** A defined monthly mean lies between any bounds of the month's readings. */
  lemma {:induction false} MonthMeanWithin(rows: seq<WeatherRow>, m: MonthStamp, lo: real, hi: real)
    requires forall i :: 0 <= i < |rows| && InMonth(rows[i].at, rows[i].month, m) ==> lo <= rows[i].temperature <= hi
    ensures MonthMean(rows, m).Some? ==> lo <= MonthMean(rows, m).value <= hi
  {
    var sel := Filter(rows, (r: WeatherRow) => InMonth(r.at, r.month, m));
    var ts := Column(sel, Temperature);
    if |ts| > 0 {
      forall i | 0 <= i < |ts| ensures lo <= ts[i] <= hi {
        var k :| 0 <= k < |rows| && rows[k] == sel[i];
      }
      MeanWithin(ts, lo, hi);
    }
  }

  /** The first value if it is defined, else the second. */
  function Or(a: Option<real>, b: Option<real>): Option<real>
  {
    if a.Some? then a else b
  }

  /** The most recently observed (last defined) value. */
  function LatestObserved(means: seq<Option<real>>): Option<real>
  {
    if |means| == 0 then None else Or(LatestObserved(means[1..]), means[0])
  }

  /** The first observed (first defined) value. */
  function FirstObserved(means: seq<Option<real>>): Option<real>
  {
    if |means| == 0 then None else Or(means[0], FirstObserved(means[1..]))
  }

  /** `get_famine_data`'s single pass over the months: a month without readings
      takes the previously emitted value, and `prev` is what was emitted
      last (undefined before anything was observed). */
  function CarryForward(means: seq<Option<real>>, prev: Option<real>): (r: seq<Option<real>>)
    ensures |r| == |means|
  {
    if |means| == 0 then []
    else
      var v := Or(means[0], prev);
      [v] + CarryForward(means[1..], v)
  }

  /** After the pass, every month still undefined (a leading gap) takes the
      first observed value. */
  function Backfill(filled: seq<Option<real>>, first: Option<real>): (r: seq<Option<real>>)
    ensures |r| == |filled|
  {
    seq(|filled|, i requires 0 <= i < |filled| => Or(filled[i], first))
  }

  /** The gap-filled monthly temperatures. Month i gets its own mean if it
      has readings, otherwise the latest value observed before it, otherwise
      (a leading gap) the first value observed at all. */
  function GapFill(means: seq<Option<real>>): (r: seq<Option<real>>)
    ensures |r| == |means|
    ensures forall i :: 0 <= i < |means| ==>
      r[i] == Or(means[i], Or(LatestObserved(means[..i]), FirstObserved(means)))
  {
    GapFillPointwise(means);
    Backfill(CarryForward(means, None), FirstObserved(means))
  }

  lemma {:induction false} LatestObservedSnoc(s: seq<Option<real>>, x: Option<real>)
    ensures LatestObserved(s + [x]) == Or(x, LatestObserved(s))
  {
    if |s| > 0 {
      assert (s + [x])[1..] == s[1..] + [x];
      LatestObservedSnoc(s[1..], x);
    } else {
      assert s + [x] == [x];
    }
  }

  /** What the pass emits for month i: the latest observation up to and
      including month i, or `prev` if there is none. */
  lemma {:induction false} CarryForwardAt(means: seq<Option<real>>, prev: Option<real>, i: int)
    requires 0 <= i < |means|
    ensures CarryForward(means, prev)[i] == Or(LatestObserved(means[..i + 1]), prev)
  {
    var v := Or(means[0], prev);
    if i == 0 {
      assert means[..1] == [means[0]];
      assert LatestObserved(means[..1]) == Or(LatestObserved(means[..1][1..]), means[0]);
      assert means[..1][1..] == [];
    } else {
      CarryForwardAt(means[1..], v, i - 1);
      assert means[1..][..i] == means[..i + 1][1..];
      assert LatestObserved(means[..i + 1]) == Or(LatestObserved(means[1..][..i]), means[0]);
    }
  }

  lemma {:induction false} GapFillPointwise(means: seq<Option<real>>)
    ensures forall i :: 0 <= i < |means| ==>
      Backfill(CarryForward(means, None), FirstObserved(means))[i]
        == Or(means[i], Or(LatestObserved(means[..i]), FirstObserved(means)))
  {
    forall i | 0 <= i < |means|
      ensures Backfill(CarryForward(means, None), FirstObserved(means))[i]
           == Or(means[i], Or(LatestObserved(means[..i]), FirstObserved(means)))
    {
      CarryForwardAt(means, None, i);
      assert means[..i + 1] == means[..i] + [means[i]];
      LatestObservedSnoc(means[..i], means[i]);
    }
  }

  lemma {:induction false} ObservedIs(means: seq<Option<real>>, v: real)
    requires forall i :: 0 <= i < |means| && means[i].Some? ==> means[i] == Some(v)
    ensures LatestObserved(means) == None || LatestObserved(means) == Some(v)
    ensures FirstObserved(means) == None || FirstObserved(means) == Some(v)
    ensures (exists i :: 0 <= i < |means| && means[i].Some?) ==> FirstObserved(means) == Some(v)
  {
    if |means| > 0 {
      ObservedIs(means[1..], v);
      if exists i :: 0 <= i < |means| && means[i].Some? {
        var i :| 0 <= i < |means| && means[i].Some?;
        if i > 0 {
          assert means[1..][i - 1].Some?;
        }
      }
    }
  }

  /** The fill law: when at least one month is observed and every observed
      month has the value v, every month ends up with v. */
  lemma {:induction false} UniformFill(means: seq<Option<real>>, v: real)
    requires exists i :: 0 <= i < |means| && means[i].Some?
    requires forall i :: 0 <= i < |means| && means[i].Some? ==> means[i] == Some(v)
    ensures forall i :: 0 <= i < |means| ==> GapFill(means)[i] == Some(v)
  {
    ObservedIs(means, v);
    forall i | 0 <= i < |means| ensures GapFill(means)[i] == Some(v) {
      ObservedIs(means[..i], v);
    }
  }

  lemma {:induction false} FirstObservedFound(means: seq<Option<real>>)
    ensures FirstObserved(means).Some? <==> exists i :: 0 <= i < |means| && means[i].Some?
  {
    if |means| > 0 {
      FirstObservedFound(means[1..]);
      if exists i :: 0 <= i < |means| && means[i].Some? {
        var i :| 0 <= i < |means| && means[i].Some?;
        if i > 0 {
          assert means[1..][i - 1].Some?;
        }
      }
      if exists i :: 0 <= i < |means[1..]| && means[1..][i].Some? {
        var i :| 0 <= i < |means[1..]| && means[1..][i].Some?;
        assert means[i + 1].Some?;
      }
    }
  }

  /** Gap filling defines every month exactly when some month is observed;
      with no observation at all every month stays undefined. */
  lemma {:induction false} GapFillDefined(means: seq<Option<real>>)
    ensures (exists i :: 0 <= i < |means| && means[i].Some?) ==>
      forall i :: 0 <= i < |means| ==> GapFill(means)[i].Some?
    ensures (forall i :: 0 <= i < |means| ==> means[i].None?) ==>
      forall i :: 0 <= i < |means| ==> GapFill(means)[i].None?
  {
    FirstObservedFound(means);
    if forall i :: 0 <= i < |means| ==> means[i].None? {
      forall i | 0 <= i < |means| ensures LatestObserved(means[..i]).None? {
        FirstObservedFound(means[..i]);
        LatestIsFound(means[..i]);
      }
    }
  }

  lemma {:induction false} LatestIsFound(means: seq<Option<real>>)
    ensures LatestObserved(means).Some? ==> FirstObserved(means).Some?
  {
    if |means| > 0 {
      LatestIsFound(means[1..]);
    }
  }

  // ---------------------------------------------------------------------
  // The monthly weather table
  // ---------------------------------------------------------------------

  function MonthlyMeans(rows: seq<WeatherRow>, ms: seq<MonthStamp>): (means: seq<Option<real>>)
    ensures |means| == |ms| && forall i :: 0 <= i < |ms| ==> means[i] == MonthMean(rows, ms[i])
  {
    seq(|ms|, i requires 0 <= i < |ms| => MonthMean(rows, ms[i]))
  }

  /** The monthly weather table over the range `span` of the weather rows:
      one bucket per month of each quarter of the span, in chronological
      order, each labelled with its own quarter. */
  function AggregateWeather(rows: seq<WeatherRow>, span: Window): (r: seq<WeatherBucket>)
    ensures |r| == 3 * |QuarterSpan(span.start, span.end)|
    ensures forall i :: 0 <= i < |r| ==> r[i].quarter == QuarterOf(r[i].month)
    ensures forall i, j :: 0 <= i < j < |r| ==> MonthOrd(BucketMonth(r[i])) < MonthOrd(BucketMonth(r[j]))
    ensures forall m :: m in Column(r, BucketMonth) <==> InWindow(Stamp(m.year, QuarterOf(m.month)), span)
  {
    var ms := MonthsOfQuarters(QuarterSpan(span.start, span.end));
    var filled := GapFill(MonthlyMeans(rows, ms));
    var r := seq(|ms|, i requires 0 <= i < |ms| =>
      WeatherBucket(ms[i].year, ms[i].month, QuarterOf(ms[i].month), filled[i]));
    AggregateWeatherShape(span, ms, Column(r, BucketMonth));
    r
  }

  lemma {:induction false} AggregateWeatherShape(span: Window, ms: seq<MonthStamp>, months: seq<MonthStamp>)
    requires ms == MonthsOfQuarters(QuarterSpan(span.start, span.end)) && months == ms
    ensures forall i, j :: 0 <= i < j < |ms| ==> MonthOrd(ms[i]) < MonthOrd(ms[j])
    ensures forall m :: m in months <==> InWindow(Stamp(m.year, QuarterOf(m.month)), span)
  {
    var qs := QuarterSpan(span.start, span.end);
    SpanIncreasing(span.start, span.end);
    MonthsIncreasing(qs);
    forall m ensures m in ms <==> InWindow(Stamp(m.year, QuarterOf(m.month)), span) {
      MonthsMember(qs, m);
      SpanMember(span.start, span.end, Stamp(m.year, QuarterOf(m.month)));
    }
  }

  lemma {:induction false} BucketAt(rows: seq<WeatherRow>, span: Window, i: int)
    requires 0 <= i < |AggregateWeather(rows, span)|
    ensures var ms := MonthsOfQuarters(QuarterSpan(span.start, span.end));
            AggregateWeather(rows, span)[i]
              == WeatherBucket(ms[i].year, ms[i].month, QuarterOf(ms[i].month), GapFill(MonthlyMeans(rows, ms))[i])
  {
  }

  /** A bucket's temperature is its month's mean when the month has
      readings; otherwise the latest mean observed in an earlier month of
      the table; otherwise the first mean observed in the table. */
  lemma {:induction false} BucketTemperature(rows: seq<WeatherRow>, span: Window, i: int)
    requires 0 <= i < |AggregateWeather(rows, span)|
    ensures var ms := MonthsOfQuarters(QuarterSpan(span.start, span.end));
            var means := MonthlyMeans(rows, ms);
            var b := AggregateWeather(rows, span)[i];
            b.temperature == Or(MonthMean(rows, BucketMonth(b)), Or(LatestObserved(means[..i]), FirstObserved(means)))
  {
    BucketAt(rows, span, i);
  }

  /** Well-formed readings: the Quarter column agrees with the Month column. */
  predicate Consistent(rows: seq<WeatherRow>)
  {
    forall i :: 0 <= i < |rows| ==> rows[i].at.quarter == QuarterOf(rows[i].month)
  }

  /** Over the range of its own well-formed readings the table has no
      undefined month: some month of the range has readings, so gap filling
      defines all of them. */
  lemma {:induction false} AllMonthsDefined(rows: seq<WeatherRow>)
    requires |rows| > 0 && Consistent(rows)
    ensures var span := Resolve(Column(rows, ReadingAt)).value;
            forall i :: 0 <= i < |AggregateWeather(rows, span)| ==> AggregateWeather(rows, span)[i].temperature.Some?
  {
    var stamps := Column(rows, ReadingAt);
    var span := Resolve(stamps).value;
    assert InWindow(stamps[0], span);
    var ms := MonthsOfQuarters(QuarterSpan(span.start, span.end));
    var means := MonthlyMeans(rows, ms);
    ObservedMonth(rows, span);
    GapFillDefined(means);
    forall i | 0 <= i < |AggregateWeather(rows, span)| ensures AggregateWeather(rows, span)[i].temperature.Some? {
      BucketAt(rows, span, i);
    }
  }

  /** A month of a reading inside the span is observed. */
  lemma {:induction false} ObservedMonth(rows: seq<WeatherRow>, span: Window)
    requires |rows| > 0 && InWindow(Stamp(rows[0].at.year, QuarterOf(rows[0].month)), span)
    ensures var means := MonthlyMeans(rows, MonthsOfQuarters(QuarterSpan(span.start, span.end)));
            exists k :: 0 <= k < |means| && means[k].Some?
  {
    var ms := MonthsOfQuarters(QuarterSpan(span.start, span.end));
    var m := MonthStamp(rows[0].at.year, rows[0].month);
    AggregateWeatherShape(span, ms, ms);
    var k :| 0 <= k < |ms| && ms[k] == m;
    assert InMonth(rows[0].at, rows[0].month, m);
    assert MonthlyMeans(rows, ms)[k].Some?;
  }

  // ---------------------------------------------------------------------
  // Quarter lookups on the monthly table
  // ---------------------------------------------------------------------

  /** The buckets of one (Year, Quarter): the monthly table's mask. */
  function QuarterReadings(bs: seq<WeatherBucket>, year: int, q: Quarter): seq<WeatherBucket>
  {
    Filter(bs, (b: WeatherBucket) => b.year == year && b.quarter == q)
  }

  /** Inside its span the monthly table has exactly the three buckets of
      the quarter; outside it has none. */
  lemma {:induction false} QuarterReadingsLayout(rows: seq<WeatherRow>, span: Window, s: Stamp)
    ensures !InWindow(s, span) ==> QuarterReadings(AggregateWeather(rows, span), s.year, s.quarter) == []
    ensures InWindow(s, span) ==> |QuarterReadings(AggregateWeather(rows, span), s.year, s.quarter)| == 3
  {
    var qs := QuarterSpan(span.start, span.end);
    var r := AggregateWeather(rows, span);
    var p := (b: WeatherBucket) => b.year == s.year && b.quarter == s.quarter;
    SpanIncreasing(span.start, span.end);
    SpanMember(span.start, span.end, s);
    forall i | 0 <= i < |r| ensures p(r[i]) <==> qs[i / 3] == s {
      BucketAt(rows, span, i);
      MonthInItsQuarter(qs, i);
    }
    MonthlyQuarterRows(r, qs, p, s);
    if s in qs {
      var j :| 0 <= j < |qs| && qs[j] == s;
    }
  }
}
