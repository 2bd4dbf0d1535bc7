/** Monthly aggregation of conflict events: one bucket per month of the
    enumerated quarters, holding the month's total fatalities (0 when the
    month has no event; an absent event is a true zero, not a gap). */
module ConflictAggregation {
  import opened Calendar
  import opened Tables
  import opened Windows

  datatype ConflictBucket = ConflictBucket(year: int, month: Month, quarter: Quarter, fatalities: int)

  function BucketMonth(b: ConflictBucket): MonthStamp
  {
    MonthStamp(b.year, b.month)
  }

  /** The quarters the aggregation loop visits. Its years run from the
      window's start year up to but NOT including the end year, so the end
      year itself is never aggregated; the end-quarter branch of the loop
      can therefore never fire. */
  function ConflictQuarters(w: Window): seq<Stamp>
  {
    LoopQuarters(w.start.year, w.end.year, w.start, w.end)
  }

  /** The months that get a bucket, stated without the loop. */
  predicate Aggregated(w: Window, m: MonthStamp)
  {
    && w.start.year <= m.year < w.end.year
    && (m.year == w.start.year ==> w.start.quarter <= QuarterOf(m.month))
  }

  function EventFatalities(r: ConflictRow): int { r.fatalities }

  /** Total fatalities of the events of one (Year, Month); 0 without events. */
  function MonthFatalities(rows: seq<ConflictRow>, m: MonthStamp): (n: int)
    ensures (forall i :: 0 <= i < |rows| ==> !InMonth(rows[i].at, rows[i].month, m)) ==> n == 0
  {
    FilterNone(rows, (r: ConflictRow) => InMonth(r.at, r.month, m));
    Sum(Column(Filter(rows, (r: ConflictRow) => InMonth(r.at, r.month, m)), EventFatalities))
  }

  lemma {:induction false} SumConcat(a: seq<int>, b: seq<int>)
    ensures Sum(a + b) == Sum(a) + Sum(b)
  {
    if |a| > 0 {
      assert (a + b)[1..] == a[1..] + b;
      SumConcat(a[1..], b);
    } else {
      assert a + b == b;
    }
  }

  lemma {:induction false} SumOfThree(xs: seq<int>)
    requires |xs| == 3
    ensures Sum(xs) == xs[0] + xs[1] + xs[2]
  {
    assert xs[1..][0] == xs[1] && xs[1..][1..][0] == xs[2] && xs[1..][1..][1..] == [];
    assert Sum(xs[1..][1..]) == xs[2] + Sum(xs[1..][1..][1..]);
  }

  /** Splitting the event table splits each month's total. */
  lemma {:induction false} MonthFatalitiesAdditive(a: seq<ConflictRow>, b: seq<ConflictRow>, m: MonthStamp)
    ensures MonthFatalities(a + b, m) == MonthFatalities(a, m) + MonthFatalities(b, m)
  {
    var p := (r: ConflictRow) => InMonth(r.at, r.month, m);
    FilterConcat(a, b, p);
    assert Column(Filter(a, p) + Filter(b, p), EventFatalities)
        == Column(Filter(a, p), EventFatalities) + Column(Filter(b, p), EventFatalities);
    SumConcat(Column(Filter(a, p), EventFatalities), Column(Filter(b, p), EventFatalities));
  }

  /** A single event counts its fatalities towards its own month and
      nothing towards any other; with `MonthFatalitiesAdditive` this fixes a
      month's total as the sum of its events' fatalities. */
  lemma {:induction false} MonthFatalitiesOfOne(e: ConflictRow, m: MonthStamp)
    ensures MonthFatalities([e], m) == if InMonth(e.at, e.month, m) then e.fatalities else 0
  {
    var p := (r: ConflictRow) => InMonth(r.at, r.month, m);
    if p(e) {
      assert [e][1..] == [];
      assert Filter([e], p) == [e];
      assert Column([e], EventFatalities) == [e.fatalities];
      assert Sum([e.fatalities]) == e.fatalities + Sum([]);
    }
  }

  /** The monthly conflict table built by `get_famine_data`'s nested year/quarter/month loop. */
  function AggregateConflict(rows: seq<ConflictRow>, w: Window): (r: seq<ConflictBucket>)
    ensures |r| == 3 * |ConflictQuarters(w)|
    ensures forall i :: 0 <= i < |r| ==>
      r[i].fatalities == MonthFatalities(rows, BucketMonth(r[i])) && r[i].quarter == QuarterOf(r[i].month)
    ensures forall i, j :: 0 <= i < j < |r| ==> MonthOrd(BucketMonth(r[i])) < MonthOrd(BucketMonth(r[j]))
    ensures forall m :: m in Column(r, BucketMonth) <==> Aggregated(w, m)
  {
    var ms := MonthsOfQuarters(ConflictQuarters(w));
    var r := seq(|ms|, i requires 0 <= i < |ms| =>
      ConflictBucket(ms[i].year, ms[i].month, QuarterOf(ms[i].month), MonthFatalities(rows, ms[i])));
    AggregateConflictShape(w, ms, Column(r, BucketMonth));
    r
  }

  lemma {:induction false} AggregateConflictShape(w: Window, ms: seq<MonthStamp>, months: seq<MonthStamp>)
    requires ms == MonthsOfQuarters(ConflictQuarters(w)) && months == ms
    ensures forall i, j :: 0 <= i < j < |ms| ==> MonthOrd(ms[i]) < MonthOrd(ms[j])
    ensures forall m :: m in months <==> Aggregated(w, m)
  {
    var qs := ConflictQuarters(w);
    LoopQuartersIncreasing(w.start.year, w.end.year, w.start, w.end);
    MonthsIncreasing(qs);
    forall m ensures m in ms <==> Aggregated(w, m) {
      MonthsMember(qs, m);
      LoopQuartersMember(w.start.year, w.end.year, w.start, w.end, Stamp(m.year, QuarterOf(m.month)));
    }
  }

  /** No bucket is ever produced for the end year of the window. */
  lemma {:induction false} NoBucketInEndYear(rows: seq<ConflictRow>, w: Window)
    ensures forall i :: 0 <= i < |AggregateConflict(rows, w)| ==> AggregateConflict(rows, w)[i].year < w.end.year
  {
    var r := AggregateConflict(rows, w);
    forall i | 0 <= i < |r| ensures r[i].year < w.end.year {
      assert Column(r, BucketMonth)[i] in Column(r, BucketMonth);
    }
  }

  /** The buckets of one quarter: the monthly table's Year/Quarter mask. */
  function QuarterBuckets(bs: seq<ConflictBucket>, s: Stamp): seq<ConflictBucket>
  {
    Filter(bs, (b: ConflictBucket) => b.year == s.year && b.quarter == s.quarter)
  }

  function BucketFatalities(b: ConflictBucket): int { b.fatalities }

  lemma {:induction false} BucketAt(rows: seq<ConflictRow>, w: Window, i: int)
    requires 0 <= i < |AggregateConflict(rows, w)|
    ensures var m := MonthsOfQuarters(ConflictQuarters(w))[i];
            AggregateConflict(rows, w)[i] == ConflictBucket(m.year, m.month, QuarterOf(m.month), MonthFatalities(rows, m))
  {
  }

  /** The buckets of a visited quarter are its block of three; a quarter
      the loop did not visit has none. */
  lemma {:induction false} QuarterBucketsLayout(rows: seq<ConflictRow>, w: Window, s: Stamp)
    ensures s !in ConflictQuarters(w) ==> QuarterBuckets(AggregateConflict(rows, w), s) == []
    ensures forall j :: 0 <= j < |ConflictQuarters(w)| && ConflictQuarters(w)[j] == s ==>
      QuarterBuckets(AggregateConflict(rows, w), s) == AggregateConflict(rows, w)[3 * j..3 * j + 3]
  {
    var qs := ConflictQuarters(w);
    var r := AggregateConflict(rows, w);
    var p := (b: ConflictBucket) => b.year == s.year && b.quarter == s.quarter;
    LoopQuartersIncreasing(w.start.year, w.end.year, w.start, w.end);
    forall i | 0 <= i < |r| ensures p(r[i]) <==> qs[i / 3] == s {
      BucketAt(rows, w, i);
      MonthInItsQuarter(qs, i);
    }
    MonthlyQuarterRows(r, qs, p, s);
  }

  lemma {:induction false} VisitedQuarterTotal(rows: seq<ConflictRow>, w: Window, j: int)
    requires 0 <= j < |ConflictQuarters(w)|
    ensures var s := ConflictQuarters(w)[j];
            Sum(Column(QuarterBuckets(AggregateConflict(rows, w), s), BucketFatalities)) ==
              MonthFatalities(rows, MonthOfQuarter(s, 0)) + MonthFatalities(rows, MonthOfQuarter(s, 1))
                + MonthFatalities(rows, MonthOfQuarter(s, 2))
  {
    var qs := ConflictQuarters(w);
    var ms := MonthsOfQuarters(qs);
    var r := AggregateConflict(rows, w);
    QuarterBucketsLayout(rows, w, qs[j]);
    var i := 3 * j;
    assert i / 3 == j && (i + 1) / 3 == j && (i + 2) / 3 == j;
    assert i % 3 == 0 && (i + 1) % 3 == 1 && (i + 2) % 3 == 2;
    assert ms[i] == MonthOfQuarter(qs[j], 0);
    assert ms[i + 1] == MonthOfQuarter(qs[j], 1);
    assert ms[i + 2] == MonthOfQuarter(qs[j], 2);
    BucketAt(rows, w, i);
    BucketAt(rows, w, i + 1);
    BucketAt(rows, w, i + 2);
    BlockTotal(r, i);
  }

  /** The total of a block of three buckets. */
  lemma {:induction false} BlockTotal(r: seq<ConflictBucket>, i: int)
    requires 0 <= i && i + 3 <= |r|
    ensures Sum(Column(r[i..i + 3], BucketFatalities)) == r[i].fatalities + r[i + 1].fatalities + r[i + 2].fatalities
  {
    var fs := Column(r[i..i + 3], BucketFatalities);
    assert fs[0] == r[i].fatalities && fs[1] == r[i + 1].fatalities && fs[2] == r[i + 2].fatalities;
    SumOfThree(fs);
  }

  /** A quarter's total over the monthly table is the sum of the events of
      its three months when the loop visited it, and 0 otherwise. */
  lemma {:induction false} QuarterTotal(rows: seq<ConflictRow>, w: Window, s: Stamp)
    ensures Sum(Column(QuarterBuckets(AggregateConflict(rows, w), s), BucketFatalities)) ==
      if s in ConflictQuarters(w) then
        MonthFatalities(rows, MonthOfQuarter(s, 0)) + MonthFatalities(rows, MonthOfQuarter(s, 1))
          + MonthFatalities(rows, MonthOfQuarter(s, 2))
      else 0
  {
    var qs := ConflictQuarters(w);
    if s in qs {
      var j :| 0 <= j < |qs| && qs[j] == s;
      VisitedQuarterTotal(rows, w, j);
    } else {
      QuarterBucketsLayout(rows, w, s);
    }
  }
}
