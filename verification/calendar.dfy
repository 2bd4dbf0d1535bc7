/** Calendar arithmetic shared by every stage: quarters, months, the
    quarter ordinal used for window comparisons, the dataset key, the
    number of days in a quarter, and the nested year/quarter loop that the
    aggregation and synthesis stages all walk. */
module Calendar {

  /** A calendar quarter, 1 (January to March) to 4 (October to December). */
  type Quarter = q: int | 1 <= q <= 4 witness 1

  /** A calendar month, 1 (January) to 12 (December). */
  type Month = m: int | 1 <= m <= 12 witness 1

  /** A (Year, Quarter) pair as carried by every quarterly table. */
  datatype Stamp = Stamp(year: int, quarter: Quarter)

  /** A (Year, Month) pair: one monthly bucket. */
  datatype MonthStamp = MonthStamp(year: int, month: Month)

  /** Quarter ordinal year*4+quarter: chronological comparison of quarters. */
  function Ord(s: Stamp): int
  {
    s.year * 4 + s.quarter
  }

  /** Month ordinal year*12+month: chronological comparison of months. */
  function MonthOrd(m: MonthStamp): int
  {
    m.year * 12 + m.month
  }

  function YearOf(s: Stamp): int
  {
    s.year
  }

  /** A row stamped (Year, Quarter) with Month `month` falls in month m. */
  predicate InMonth(at: Stamp, month: Month, m: MonthStamp)
  {
    at.year == m.year && month == m.month
  }

  /** The dataset key of a quarter, year*10+quarter. */
  function Key(s: Stamp): int
  {
    s.year * 10 + s.quarter
  }

  /** The quarter a month belongs to. */
  function QuarterOf(m: Month): Quarter
  {
    (m - 1) / 3 + 1
  }

  /** The first month of a quarter, (quarter-1)*3+1. */
  function FirstMonth(q: Quarter): (m: Month)
    ensures QuarterOf(m) == q
  {
    (q - 1) * 3 + 1
  }

  /** Gregorian leap years. */
  predicate IsLeapYear(year: int)
  {
    year % 4 == 0 && (year % 100 != 0 || year % 400 == 0)
  }

  function DaysInYear(year: int): int
  {
    if IsLeapYear(year) then 366 else 365
  }

  /** The number of calendar days in a quarter (the `getDays` helper). */
  function DaysInQuarter(s: Stamp): (d: int)
    ensures 90 <= d <= 92
    ensures d == 90 <==> s.quarter == 1 && !IsLeapYear(s.year)
    ensures d == 92 <==> s.quarter >= 3
  {
    match s.quarter
    case 1 => if IsLeapYear(s.year) then 91 else 90
    case 2 => 91
    case _ => 92
  }

  /** The four quarters of a year add up to the year. */
  lemma {:induction false} QuartersFillYear(year: int)
    ensures DaysInQuarter(Stamp(year, 1)) + DaysInQuarter(Stamp(year, 2))
          + DaysInQuarter(Stamp(year, 3)) + DaysInQuarter(Stamp(year, 4)) == DaysInYear(year)
  {
  }

  /** The quarter ordinal orders quarters lexicographically by (year, quarter)
      and identifies them uniquely. */
  lemma {:induction false} OrdIsLexicographic(a: Stamp, b: Stamp)
    ensures Ord(a) < Ord(b) <==> a.year < b.year || (a.year == b.year && a.quarter < b.quarter)
    ensures Ord(a) == Ord(b) <==> a == b
  {
  }

  /** Dataset keys are unique per quarter and sort like the quarters do. */
  lemma {:induction false} KeyFollowsOrd(a: Stamp, b: Stamp)
    ensures Key(a) < Key(b) <==> Ord(a) < Ord(b)
    ensures Key(a) == Key(b) <==> a == b
  {
  }

  predicate StrictlyIncreasing(qs: seq<Stamp>)
  {
    forall a, b :: 0 <= a < b < |qs| ==> Ord(qs[a]) < Ord(qs[b])
  }

  // ---------------------------------------------------------------------
  // The nested loop
  //   for year in range(from, stop):
  //     first = firstQ if year == first.year else 1
  //     last  = lastQ  if year == last.year  else 4
  //     for quarter in range(first, last + 1): ...
  // ---------------------------------------------------------------------

  /** The quarters the inner loop visits in one year. */
  function YearQuarters(year: int, first: Stamp, last: Stamp): seq<Stamp>
  {
    var lo: int := if year == first.year then first.quarter else 1;
    var hi: int := if year == last.year then last.quarter else 4;
    seq(if hi < lo then 0 else hi - lo + 1, i requires 0 <= i <= hi - lo => Stamp(year, lo + i))
  }

  lemma {:induction false} YearQuartersMember(year: int, first: Stamp, last: Stamp, s: Stamp)
    ensures forall i :: 0 <= i < |YearQuarters(year, first, last)| ==> YearQuarters(year, first, last)[i].year == year
    ensures s in YearQuarters(year, first, last) <==>
      s.year == year && (year == first.year ==> first.quarter <= s.quarter)
                     && (year == last.year ==> s.quarter <= last.quarter)
  {
    var r := YearQuarters(year, first, last);
    var lo: int := if year == first.year then first.quarter else 1;
    if s.year == year && lo <= s.quarter && (year == last.year ==> s.quarter <= last.quarter) {
      assert r[s.quarter - lo] == s;
    }
  }

  /** The quarters the whole loop visits, years from `year` up to (not
      including) `stop`. */
  function LoopQuarters(year: int, stop: int, first: Stamp, last: Stamp): seq<Stamp>
    decreases stop - year
  {
    if year >= stop then [] else YearQuarters(year, first, last) + LoopQuarters(year + 1, stop, first, last)
  }

  /** The loop over an inclusive window: years first.year .. last.year. */
  function QuarterSpan(first: Stamp, last: Stamp): seq<Stamp>
  {
    LoopQuarters(first.year, last.year + 1, first, last)
  }

  /** A quarter is visited exactly when its year is in the loop's range and
      it respects the start quarter in the first year and the end quarter in
      the last year. */
  lemma {:induction false} LoopQuartersMember(year: int, stop: int, first: Stamp, last: Stamp, s: Stamp)
    ensures s in LoopQuarters(year, stop, first, last) <==>
      year <= s.year < stop && (s.year == first.year ==> first.quarter <= s.quarter)
                            && (s.year == last.year ==> s.quarter <= last.quarter)
    decreases stop - year
  {
    if year < stop {
      YearQuartersMember(year, first, last, s);
      LoopQuartersMember(year + 1, stop, first, last, s);
    }
  }

  /** The loop visits quarters in strictly increasing chronological order. */
  lemma {:induction false} LoopQuartersIncreasing(year: int, stop: int, first: Stamp, last: Stamp)
    ensures StrictlyIncreasing(LoopQuarters(year, stop, first, last))
    ensures forall s :: s in LoopQuarters(year, stop, first, last) ==> year <= s.year
    decreases stop - year
  {
    if year < stop {
      LoopQuartersIncreasing(year + 1, stop, first, last);
      var head := YearQuarters(year, first, last);
      var tail := LoopQuarters(year + 1, stop, first, last);
      var w := head + tail;
      forall s | s in head ensures s.year == year {
        YearQuartersMember(year, first, last, s);
      }
      assert forall i :: 0 <= i < |head| ==> w[i] == head[i];
      assert forall i :: |head| <= i < |w| ==> w[i] == tail[i - |head|] && w[i] in tail;
      forall a, b | 0 <= a < b < |w|
        ensures Ord(w[a]) < Ord(w[b])
      {
        if b < |head| {
          assert w[a] in head && w[b] in head;
        } else if a < |head| {
          assert w[a].year == year && w[b].year > year;
        }
      }
    }
  }

  /** A span visits exactly the quarters between its ends, by ordinal. */
  lemma {:induction false} SpanMember(first: Stamp, last: Stamp, s: Stamp)
    ensures s in QuarterSpan(first, last) <==> Ord(first) <= Ord(s) <= Ord(last)
  {
    LoopQuartersMember(first.year, last.year + 1, first, last, s);
  }

  lemma {:induction false} LoopQuartersIndexed(year: int, first: Stamp, last: Stamp)
    requires first.year <= year
    ensures var lo := if year == first.year then Ord(first) else year * 4 + 1;
            var w := LoopQuarters(year, last.year + 1, first, last);
            |w| == (if Ord(last) < lo then 0 else Ord(last) - lo + 1)
            && forall i :: 0 <= i < |w| ==> Ord(w[i]) == lo + i
    decreases last.year + 1 - year
  {
    var w := LoopQuarters(year, last.year + 1, first, last);
    if year <= last.year {
      LoopQuartersIndexed(year + 1, first, last);
      var head := YearQuarters(year, first, last);
      var tail := LoopQuarters(year + 1, last.year + 1, first, last);
      assert forall i :: 0 <= i < |head| ==> w[i] == head[i];
      assert forall i :: |head| <= i < |w| ==> w[i] == tail[i - |head|];
    }
  }

  /** A span has no gaps: its i-th quarter is i quarters after the start,
      and it has one element per quarter of the window. */
  lemma {:induction false} SpanIndexed(first: Stamp, last: Stamp)
    ensures var w := QuarterSpan(first, last);
            |w| == (if Ord(last) < Ord(first) then 0 else Ord(last) - Ord(first) + 1)
            && forall i :: 0 <= i < |w| ==> Ord(w[i]) == Ord(first) + i
  {
    LoopQuartersIndexed(first.year, first, last);
  }

  lemma {:induction false} SpanIncreasing(first: Stamp, last: Stamp)
    ensures StrictlyIncreasing(QuarterSpan(first, last))
  {
    LoopQuartersIncreasing(first.year, last.year + 1, first, last);
  }

  // ---------------------------------------------------------------------
  // Months of the visited quarters
  // ---------------------------------------------------------------------

  /** The k-th month (k = 0, 1, 2) of a quarter. */
  function MonthOfQuarter(s: Stamp, k: int): (m: MonthStamp)
    requires 0 <= k < 3
    ensures m.year == s.year && QuarterOf(m.month) == s.quarter
  {
    MonthStamp(s.year, FirstMonth(s.quarter) + k)
  }

  /** For each visited quarter, its months (quarter-1)*3+1 .. quarter*3. */
  function MonthsOfQuarters(qs: seq<Stamp>): (ms: seq<MonthStamp>)
    ensures |ms| == 3 * |qs|
  {
    seq(3 * |qs|, i requires 0 <= i < 3 * |qs| => MonthOfQuarter(qs[i / 3], i % 3))
  }

  lemma {:induction false} MonthInItsQuarter(qs: seq<Stamp>, i: int)
    requires 0 <= i < 3 * |qs|
    ensures MonthsOfQuarters(qs)[i].year == qs[i / 3].year
    ensures QuarterOf(MonthsOfQuarters(qs)[i].month) == qs[i / 3].quarter
    ensures MonthOrd(MonthsOfQuarters(qs)[i]) == 3 * Ord(qs[i / 3]) - 2 + i % 3
  {
  }

  /** Months come out in strictly increasing order when the quarters do: at
      most one bucket per month. */
  lemma {:induction false} MonthsIncreasing(qs: seq<Stamp>)
    requires StrictlyIncreasing(qs)
    ensures var ms := MonthsOfQuarters(qs);
            forall a, b :: 0 <= a < b < |ms| ==> MonthOrd(ms[a]) < MonthOrd(ms[b])
  {
    var ms := MonthsOfQuarters(qs);
    forall a, b | 0 <= a < b < |ms|
      ensures MonthOrd(ms[a]) < MonthOrd(ms[b])
    {
      MonthInItsQuarter(qs, a);
      MonthInItsQuarter(qs, b);
      if a / 3 < b / 3 {
        assert Ord(qs[a / 3]) < Ord(qs[b / 3]);
      }
    }
  }

  /** A month gets a bucket exactly when its quarter is visited: at least
      one bucket per month of the visited quarters, and no other. */
  lemma {:induction false} MonthsMember(qs: seq<Stamp>, m: MonthStamp)
    ensures m in MonthsOfQuarters(qs) <==> Stamp(m.year, QuarterOf(m.month)) in qs
  {
    var ms := MonthsOfQuarters(qs);
    var s := Stamp(m.year, QuarterOf(m.month));
    if m in ms {
      var i :| 0 <= i < |ms| && ms[i] == m;
      MonthInItsQuarter(qs, i);
      assert qs[i / 3] == s;
    }
    if s in qs {
      var j :| 0 <= j < |qs| && qs[j] == s;
      var k := m.month - FirstMonth(s.quarter);
      assert 0 <= k < 3;
      var i := 3 * j + k;
      assert i / 3 == j && i % 3 == k;
      assert ms[i] == m;
    }
  }
}
