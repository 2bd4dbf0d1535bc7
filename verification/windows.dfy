/** The time window of a region: its resolution from the food-price table
    (the earliest and latest (Year, Quarter) present) and the two-step row
    clip that every other table goes through before aggregation. */
module Windows {
  import opened Calendar
  import opened Tables

  /** An inclusive range of quarters. */
  datatype Window = Window(start: Stamp, end: Stamp)

  predicate InWindow(s: Stamp, w: Window)
  {
    Ord(w.start) <= Ord(s) <= Ord(w.end)
  }

  // ---------------------------------------------------------------------
  // Range resolution: min Year, then min Quarter within that Year; max Year,
  // then max Quarter within that Year.
  // ---------------------------------------------------------------------

  function Least(xs: seq<int>): (r: int)
    requires |xs| > 0
    ensures r in xs
    ensures forall i :: 0 <= i < |xs| ==> r <= xs[i]
  {
    if |xs| == 1 then xs[0]
    else
      var rest := Least(xs[1..]);
      if xs[0] <= rest then xs[0] else rest
  }

  function Greatest(xs: seq<int>): (r: int)
    requires |xs| > 0
    ensures r in xs
    ensures forall i :: 0 <= i < |xs| ==> xs[i] <= r
  {
    if |xs| == 1 then xs[0]
    else
      var rest := Greatest(xs[1..]);
      if xs[0] >= rest then xs[0] else rest
  }

  /** The Quarter column of the rows whose Year is `year`. */
  function QuartersIn(stamps: seq<Stamp>, year: int): (qs: seq<Quarter>)
    ensures forall i :: 0 <= i < |stamps| && stamps[i].year == year ==> stamps[i].quarter in qs
    ensures forall q :: q in qs ==> Stamp(year, q) in stamps
  {
    if |stamps| == 0 then []
    else (if stamps[0].year == year then [stamps[0].quarter] else []) + QuartersIn(stamps[1..], year)
  }

  lemma {:induction false} QuartersInNonEmpty(stamps: seq<Stamp>, year: int)
    requires year in Column(stamps, YearOf)
    ensures |QuartersIn(stamps, year)| > 0
  {
    var i :| 0 <= i < |stamps| && Column(stamps, YearOf)[i] == year;
    assert stamps[i].quarter in QuartersIn(stamps, year);
  }

  /** The window spanned by a table's rows; `None` for an empty table, on
      which `get_famine_data`'s `min` raises. */
  function Resolve(stamps: seq<Stamp>): (r: Option<Window>)
    ensures r.None? <==> |stamps| == 0
    ensures r.Some? ==> r.value.start in stamps && r.value.end in stamps
    ensures r.Some? ==> forall i :: 0 <= i < |stamps| ==> InWindow(stamps[i], r.value)
  {
    if |stamps| == 0 then None
    else
      var ys := Column(stamps, YearOf);
      var ey := Least(ys);
      var ly := Greatest(ys);
      QuartersInNonEmpty(stamps, ey);
      QuartersInNonEmpty(stamps, ly);
      var eq := Least(QuartersIn(stamps, ey));
      var lq := Greatest(QuartersIn(stamps, ly));
      Some(Window(Stamp(ey, eq), Stamp(ly, lq)))
  }

  /** The resolved window is the lexicographic minimum and maximum of the
      rows' (Year, Quarter), and nothing tighter contains every row. */
  lemma {:induction false} ResolveIsTight(stamps: seq<Stamp>, w: Window)
    requires |stamps| > 0
    requires forall i :: 0 <= i < |stamps| ==> InWindow(stamps[i], w)
    ensures Ord(w.start) <= Ord(Resolve(stamps).value.start)
    ensures Ord(Resolve(stamps).value.end) <= Ord(w.end)
  {
    var r := Resolve(stamps).value;
    var i :| 0 <= i < |stamps| && stamps[i] == r.start;
    var j :| 0 <= j < |stamps| && stamps[j] == r.end;
  }

  // ---------------------------------------------------------------------
  // Clipping
  // ---------------------------------------------------------------------

  /** First mask: (Year == e_y and Quarter >= e_q) or Year > e_y. */
  predicate NotBefore(s: Stamp, w: Window)
  {
    (s.year == w.start.year && s.quarter >= w.start.quarter) || s.year > w.start.year
  }

  /** Second mask: (Year == l_y and Quarter <= l_q) or Year < l_y. */
  predicate NotAfter(s: Stamp, w: Window)
  {
    (s.year == w.end.year && s.quarter <= w.end.quarter) || s.year < w.end.year
  }

  /** The two-step clip keeps a row exactly when its quarter ordinal lies in
      the window, and keeps such rows in order and with their multiplicity. */
  function Clip<T(==)>(rows: seq<T>, at: T -> Stamp, w: Window): (r: seq<T>)
    ensures r == Filter(rows, x => InWindow(at(x), w))
  {
    ClipIsOneMask(rows, at, w);
    Filter(Filter(rows, x => NotBefore(at(x), w)), x => NotAfter(at(x), w))
  }

  lemma {:induction false} ClipIsOneMask<T>(rows: seq<T>, at: T -> Stamp, w: Window)
    ensures Filter(Filter(rows, x => NotBefore(at(x), w)), x => NotAfter(at(x), w))
         == Filter(rows, x => InWindow(at(x), w))
  {
    var p := x => NotBefore(at(x), w);
    var q := x => NotAfter(at(x), w);
    var both := x => p(x) && q(x);
    FilterTwice(rows, p, q);
    assert forall i :: 0 <= i < |rows| ==> both(rows[i]) == InWindow(at(rows[i]), w);
    FilterSameMask(rows, both, x => InWindow(at(x), w));
  }

  /** Clipping an already clipped table changes nothing. */
  lemma {:induction false} ClipIdempotent<T>(rows: seq<T>, at: T -> Stamp, w: Window)
    ensures Clip(Clip(rows, at, w), at, w) == Clip(rows, at, w)
  {
    var once := Clip(rows, at, w);
    FilterKeepsAll(once, x => InWindow(at(x), w));
  }

  /** Every row of a clipped table lies in the window, and every row of
      the table that lies in the window is kept. */
  lemma {:induction false} ClipMember<T>(rows: seq<T>, at: T -> Stamp, w: Window, x: T)
    ensures x in Clip(rows, at, w) <==> x in rows && InWindow(at(x), w)
  {
    var r := Clip(rows, at, w);
    if x in r {
      var i :| 0 <= i < |r| && r[i] == x;
    }
    if x in rows && InWindow(at(x), w) {
      var i :| 0 <= i < |rows| && rows[i] == x;
    }
  }
}
