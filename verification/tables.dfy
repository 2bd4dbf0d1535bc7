/** The record types of the five input tables, and the row-level
    operations the pipeline applies to them: boolean-mask filtering, sums and
    arithmetic means. A mean over no values is undefined (`None`), which is
    how the model stands for the not-a-number a mean of an empty column
    yields. */
module Tables {
  import opened Calendar

  datatype Option<T> = None | Some(value: T)

  /** A food or processed-food price observation. */
  datatype PriceRow = PriceRow(region: string, item: string, market: string, at: Stamp, price: real)

  /** A conflict event with its fatality count. */
  datatype ConflictRow = ConflictRow(region: string, at: Stamp, month: Month, fatalities: int)

  /** A temperature reading of one weather station. */
  datatype WeatherRow = WeatherRow(station: string, at: Stamp, month: Month, temperature: real)

  /** A food-insecurity classification: the phase 2, 3 and 4 percentages. */
  datatype IpcRow = IpcRow(region: string, at: Stamp, p2: real, p3: real, p4: real)

  /** The rows satisfying `p`, in their original order. */
  function Filter<T(==)>(s: seq<T>, p: T -> bool): (r: seq<T>)
    ensures |r| <= |s|
    ensures forall i :: 0 <= i < |r| ==> r[i] in s && p(r[i])
    ensures forall i :: 0 <= i < |s| && p(s[i]) ==> s[i] in r
  {
    if |s| == 0 then []
    else if p(s[0]) then [s[0]] + Filter(s[1..], p)
    else Filter(s[1..], p)
  }

  /** Keeping rows that all pass changes nothing. */
  lemma {:induction false} FilterKeepsAll<T>(s: seq<T>, p: T -> bool)
    requires forall i :: 0 <= i < |s| ==> p(s[i])
    ensures Filter(s, p) == s
  {
    if |s| > 0 {
      FilterKeepsAll(s[1..], p);
    }
  }

  lemma {:induction false} FilterConcat<T>(a: seq<T>, b: seq<T>, p: T -> bool)
    ensures Filter(a + b, p) == Filter(a, p) + Filter(b, p)
  {
    if |a| > 0 {
      assert (a + b)[1..] == a[1..] + b;
      FilterConcat(a[1..], b, p);
    } else {
      assert a + b == b;
    }
  }

  /** When exactly the rows at positions lo..hi pass, the filter is that slice. */
  lemma {:induction false} FilterBlock<T>(s: seq<T>, p: T -> bool, lo: int, hi: int)
    requires 0 <= lo <= hi <= |s|
    requires forall i :: 0 <= i < |s| ==> (p(s[i]) <==> lo <= i < hi)
    ensures Filter(s, p) == s[lo..hi]
    decreases |s|
  {
    if |s| > 0 {
      var t := s[1..];
      var lo' := if lo == 0 then 0 else lo - 1;
      var hi' := if hi == 0 then 0 else hi - 1;
      forall i | 0 <= i < |t| ensures p(t[i]) <==> lo' <= i < hi' {
        assert t[i] == s[i + 1];
      }
      FilterBlock(t, p, lo', hi');
      if p(s[0]) {
        assert s[lo..hi] == [s[0]] + t[lo'..hi'];
      } else {
        assert s[lo..hi] == t[lo'..hi'];
      }
    }
  }

  /** Two masks that agree on every row select the same rows. */
  lemma {:induction false} FilterSameMask<T>(s: seq<T>, p: T -> bool, q: T -> bool)
    requires forall i :: 0 <= i < |s| ==> p(s[i]) == q(s[i])
    ensures Filter(s, p) == Filter(s, q)
  {
    if |s| > 0 {
      FilterSameMask(s[1..], p, q);
    }
  }

  /** Filtering twice is filtering once by the conjunction of both masks. */
  lemma {:induction false} FilterTwice<T>(s: seq<T>, p: T -> bool, q: T -> bool)
    ensures Filter(Filter(s, p), q) == Filter(s, x => p(x) && q(x))
  {
    if |s| > 0 {
      FilterTwice(s[1..], p, q);
    }
  }

  /** Position i is the only one whose row passes `p`. */
  ghost predicate OnlyAt<T>(s: seq<T>, p: T -> bool, i: int)
  {
    0 <= i < |s| && p(s[i]) && forall j :: 0 <= j < |s| && p(s[j]) ==> j == i
  }

  lemma {:induction false} FilterNone<T>(s: seq<T>, p: T -> bool)
    ensures |Filter(s, p)| == 0 <==> forall i :: 0 <= i < |s| ==> !p(s[i])
  {
    if |Filter(s, p)| > 0 {
      var x := Filter(s, p)[0];
      var i :| 0 <= i < |s| && s[i] == x;
    }
  }

  lemma {:induction false} OnlyAtTail<T>(s: seq<T>, p: T -> bool, i: int)
    requires |s| > 0 && !p(s[0])
    ensures OnlyAt(s, p, i + 1) <==> OnlyAt(s[1..], p, i)
  {
    var t := s[1..];
    assert forall j :: 0 <= j < |t| ==> t[j] == s[j + 1];
    if OnlyAt(t, p, i) {
      forall j | 0 <= j < |s| && p(s[j]) ensures j == i + 1 {
        assert j > 0 && p(t[j - 1]);
      }
    }
  }

  /** A mask selects exactly one row iff exactly one position passes it. */
  lemma {:induction false} FilterSingle<T>(s: seq<T>, p: T -> bool)
    ensures |Filter(s, p)| == 1 <==> exists i :: OnlyAt(s, p, i)
  {
    if |s| > 0 {
      var t := s[1..];
      assert forall j :: 0 <= j < |t| ==> t[j] == s[j + 1];
      FilterSingle(t, p);
      if p(s[0]) {
        FilterNone(t, p);
        if exists i :: OnlyAt(s, p, i) {
          var i :| OnlyAt(s, p, i);
          assert i == 0;
          forall j | 0 <= j < |t| ensures !p(t[j]) {
            assert t[j] == s[j + 1];
          }
        }
        if |Filter(t, p)| == 0 {
          assert OnlyAt(s, p, 0);
        }
      } else {
        if exists i :: OnlyAt(s, p, i) {
          var i :| OnlyAt(s, p, i);
          OnlyAtTail(s, p, i - 1);
        }
        if exists i :: OnlyAt(t, p, i) {
          var i :| OnlyAt(t, p, i);
          OnlyAtTail(s, p, i);
        }
      }
    }
  }

  /** In a monthly table laid out as three rows per visited quarter, a
      quarter's mask selects that quarter's block of three rows, or nothing
      for a quarter that was not visited. */
  lemma {:induction false} MonthlyQuarterRows<T>(r: seq<T>, qs: seq<Stamp>, p: T -> bool, s: Stamp)
    requires StrictlyIncreasing(qs) && |r| == 3 * |qs|
    requires forall i :: 0 <= i < |r| ==> (p(r[i]) <==> qs[i / 3] == s)
    ensures s !in qs ==> Filter(r, p) == []
    ensures forall j :: 0 <= j < |qs| && qs[j] == s ==> Filter(r, p) == r[3 * j..3 * j + 3]
  {
    if s in qs {
      var j :| 0 <= j < |qs| && qs[j] == s;
      forall i | 0 <= i < |r| ensures p(r[i]) <==> 3 * j <= i < 3 * j + 3 {
        ThirdOf(i, j);
        IncreasingInjective(qs, i / 3, j);
      }
      FilterBlock(r, p, 3 * j, 3 * j + 3);
      forall k | 0 <= k < |qs| && qs[k] == s ensures k == j {
        IncreasingInjective(qs, k, j);
      }
    } else {
      forall i | 0 <= i < |r| ensures !p(r[i]) {
        ThirdOf(i, 0);
        assert qs[i / 3] in qs;
      }
      FilterBlock(r, p, 0, 0);
    }
  }

  /** Position i of a table of three rows per quarter is in block j iff i / 3 == j. */
  lemma {:induction false} ThirdOf(i: int, j: int)
    requires 0 <= i
    ensures i / 3 == j <==> 3 * j <= i < 3 * j + 3
    ensures 0 <= i / 3 && (i < 3 * (i / 3 + 1))
  {
  }

  lemma {:induction false} IncreasingInjective(qs: seq<Stamp>, a: int, b: int)
    requires StrictlyIncreasing(qs) && 0 <= a < |qs| && 0 <= b < |qs|
    ensures qs[a] == qs[b] <==> a == b
  {
    if a < b {
      assert Ord(qs[a]) < Ord(qs[b]);
    } else if b < a {
      assert Ord(qs[b]) < Ord(qs[a]);
    }
  }

  function Sum(xs: seq<int>): int
  {
    if |xs| == 0 then 0 else xs[0] + Sum(xs[1..])
  }

  function SumReal(xs: seq<real>): real
  {
    if |xs| == 0 then 0.0 else xs[0] + SumReal(xs[1..])
  }

  /** The arithmetic mean; undefined for no values. */
  function Mean(xs: seq<real>): (r: Option<real>)
    ensures r.None? <==> |xs| == 0
  {
    if |xs| == 0 then None else Some(SumReal(xs) / (|xs| as real))
  }

  lemma {:induction false} SumRealWithin(xs: seq<real>, lo: real, hi: real)
    requires forall i :: 0 <= i < |xs| ==> lo <= xs[i] <= hi
    ensures (|xs| as real) * lo <= SumReal(xs) <= (|xs| as real) * hi
  {
    if |xs| > 0 {
      SumRealWithin(xs[1..], lo, hi);
    }
  }

  /** A mean lies between the least and the greatest value averaged; in
      particular the mean of equal values is that value. */
  lemma {:induction false} MeanWithin(xs: seq<real>, lo: real, hi: real)
    requires |xs| > 0
    requires forall i :: 0 <= i < |xs| ==> lo <= xs[i] <= hi
    ensures lo <= Mean(xs).value <= hi
  {
    SumRealWithin(xs, lo, hi);
    var n := |xs| as real;
    var m := Mean(xs).value;
    assert m * n == SumReal(xs);
  }

  /** A column of a table: `f` of every row, in row order. */
  function Column<T, U>(rows: seq<T>, f: T -> U): (c: seq<U>)
    ensures |c| == |rows| && forall i :: 0 <= i < |rows| ==> c[i] == f(rows[i])
  {
    seq(|rows|, i requires 0 <= i < |rows| => f(rows[i]))
  }

  function Price(r: PriceRow): real { r.price }
  function Item(r: PriceRow): string { r.item }
  function Temperature(r: WeatherRow): real { r.temperature }
}
