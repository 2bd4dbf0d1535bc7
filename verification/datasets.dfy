/** The per-quarter datasets of the loaded regions: for every quarter of a
    region's window, in order, a feature vector (price slots, conflict per
    day, temperature) and, when exactly one classification matches, the
    phase percentages as labels; each quarter keyed by year*10+quarter. */
module Datasets {
  import opened Calendar
  import opened Tables
  import opened Windows
  import opened ConflictAggregation
  import opened WeatherAggregation
  import opened FamineData

  /** The phase 2, 3 and 4 percentages of a classification. */
  datatype Labels = Labels(p2: real, p3: real, p4: real)

  /** One quarter's record; a feature slot is `None` where `calculate_datasets`'
      value is not-a-number. */
  datatype QuarterRecord = QuarterRecord(labels: Option<Labels>, features: seq<Option<real>>)

  /** A dataset entry: the quarter key and its record. */
  datatype Entry = Entry(key: int, record: QuarterRecord)

  /** A region's quarter walk either completes or reaches a quarter whose
      temperature search never ends. */
  datatype Walk = Built(entries: seq<Entry>) | Hangs(at: Stamp)

  /** The result over all regions: each region's dataset (`None` for a
      region the loader rejected), or the first region and quarter at which
      `calculate_datasets` loops forever. */
  datatype Calculation =
    | Finished(byRegion: map<string, Option<seq<Entry>>>)
    | Diverges(region: string, at: Stamp)

  /** Prices are scaled down by 1e4. */
  const PriceScale: real := 10000.0

  // ---------------------------------------------------------------------
  // Labels
  // ---------------------------------------------------------------------

  function LabelsOf(r: IpcRow): Labels
  {
    Labels(r.p2, r.p3, r.p4)
  }

  /** The classification mask of one quarter. */
  function IpcIn(s: Stamp): IpcRow -> bool
  {
    (r: IpcRow) => r.at.year == s.year && r.at.quarter == s.quarter
  }

  /** The labels of a quarter: present exactly when one classification row
      has that (Year, Quarter), and then that row's percentages. */
  function LabelsAt(ipc: seq<IpcRow>, s: Stamp): (l: Option<Labels>)
    ensures l.Some? <==> exists i :: OnlyAt(ipc, IpcIn(s), i)
    ensures forall i :: OnlyAt(ipc, IpcIn(s), i) ==> l == Some(LabelsOf(ipc[i]))
  {
    var m := Filter(ipc, IpcIn(s));
    FilterSingle(ipc, IpcIn(s));
    if |m| == 1 then
      LabelsOfTheOne(ipc, IpcIn(s));
      Some(LabelsOf(m[0]))
    else None
  }

  lemma {:induction false} LabelsOfTheOne(ipc: seq<IpcRow>, p: IpcRow -> bool)
    requires |Filter(ipc, p)| == 1
    ensures forall i :: OnlyAt(ipc, p, i) ==> Filter(ipc, p)[0] == ipc[i]
  {
    var x := Filter(ipc, p)[0];
    var k :| 0 <= k < |ipc| && ipc[k] == x;
    assert p(ipc[k]);
  }

  /** A quarter with exactly one classification gets its percentages
      unchanged; one with two classifications gets none. */
  lemma {:induction false} LabelScenario()
    ensures var row := IpcRow("r", Stamp(2020, 1), 0.1, 0.2, 0.05);
            && LabelsAt([row], Stamp(2020, 1)) == Some(Labels(0.1, 0.2, 0.05))
            && LabelsAt([row, row], Stamp(2020, 1)).None?
            && LabelsAt([row], Stamp(2020, 2)).None?
  {
    var row := IpcRow("r", Stamp(2020, 1), 0.1, 0.2, 0.05);
    assert OnlyAt([row], IpcIn(Stamp(2020, 1)), 0);
    FilterKeepsAll([row, row], IpcIn(Stamp(2020, 1)));
  }

  // ---------------------------------------------------------------------
  // Feature slots
  // ---------------------------------------------------------------------

  /** The price mask of one item in one quarter. */
  function ItemIn(item: string, s: Stamp): PriceRow -> bool
  {
    (r: PriceRow) => r.at.year == s.year && r.at.quarter == s.quarter && r.item == item
  }

  /** Mean price of the item in the quarter over 1e4; undefined without prices. */
  function PriceSlot(rows: seq<PriceRow>, item: string, s: Stamp): (v: Option<real>)
    ensures v.None? <==> forall i :: 0 <= i < |rows| ==> !ItemIn(item, s)(rows[i])
  {
    FilterNone(rows, ItemIn(item, s));
    match Mean(Column(Filter(rows, ItemIn(item, s)), Price))
    case None => None
    case Some(m) => Some(m / PriceScale)
  }

  /** A price slot lies between the least and the greatest matching price,
      scaled; for a single price level p it is exactly p / 1e4. */
  lemma {:induction false} PriceSlotWithin(rows: seq<PriceRow>, item: string, s: Stamp, lo: real, hi: real)
    requires forall i :: 0 <= i < |rows| && ItemIn(item, s)(rows[i]) ==> lo <= rows[i].price <= hi
    ensures PriceSlot(rows, item, s).Some? ==> lo / PriceScale <= PriceSlot(rows, item, s).value <= hi / PriceScale
  {
    var m := Filter(rows, ItemIn(item, s));
    var ps := Column(m, Price);
    if |ps| > 0 {
      forall i | 0 <= i < |ps| ensures lo <= ps[i] <= hi {
        var k :| 0 <= k < |rows| && rows[k] == m[i];
      }
      MeanWithin(ps, lo, hi);
    }
  }

  /** One item priced 100 and 200 in the quarter gives the slot 0.015. */
  lemma {:induction false} PriceScenario()
    ensures var a := PriceRow("r", "Maize", "MarketA", Stamp(2020, 1), 100.0);
            var b := PriceRow("r", "Maize", "MarketA", Stamp(2020, 1), 200.0);
            PriceSlot([a, b], "Maize", Stamp(2020, 1)) == Some(0.015)
  {
    var a := PriceRow("r", "Maize", "MarketA", Stamp(2020, 1), 100.0);
    var b := PriceRow("r", "Maize", "MarketA", Stamp(2020, 1), 200.0);
    var p := ItemIn("Maize", Stamp(2020, 1));
    FilterKeepsAll([a, b], p);
    assert Column([a, b], Price) == [100.0, 200.0];
    assert SumReal([100.0, 200.0]) == 300.0 by {
      assert [100.0, 200.0][1..] == [200.0];
    }
  }

  /** Total fatalities of the quarter's monthly buckets per day of the quarter. */
  function ConflictSlot(bs: seq<ConflictBucket>, s: Stamp): real
  {
    (Sum(Column(QuarterBuckets(bs, s), BucketFatalities)) as real) / (DaysInQuarter(s) as real)
  }

  lemma {:induction false} SumNonNegative(xs: seq<int>)
    requires forall i :: 0 <= i < |xs| ==> xs[i] >= 0
    ensures Sum(xs) >= 0
  {
    if |xs| > 0 {
      SumNonNegative(xs[1..]);
    }
  }

  /** Non-negative fatality counts give a non-negative conflict slot. */
  lemma {:induction false} ConflictSlotNonNegative(bs: seq<ConflictBucket>, s: Stamp)
    requires forall i :: 0 <= i < |bs| ==> bs[i].fatalities >= 0
    ensures ConflictSlot(bs, s) >= 0.0
  {
    var qb := QuarterBuckets(bs, s);
    var fs := Column(qb, BucketFatalities);
    forall i | 0 <= i < |fs| ensures fs[i] >= 0 {
      var k :| 0 <= k < |bs| && bs[k] == qb[i];
    }
    SumNonNegative(fs);
  }

  lemma {:induction false} SlotOfZeroTotal(bs: seq<ConflictBucket>, s: Stamp)
    requires Sum(Column(QuarterBuckets(bs, s), BucketFatalities)) == 0
    ensures ConflictSlot(bs, s) == 0.0
  {
  }

  /** Over the monthly conflict table, a quarter's slot is its three months'
      events per day when the aggregation visited it, and 0 otherwise. */
  lemma {:induction false} ConflictSlotValue(rows: seq<ConflictRow>, w: Window, s: Stamp)
    ensures ConflictSlot(AggregateConflict(rows, w), s) ==
      (if s in ConflictQuarters(w) then
         (MonthFatalities(rows, MonthOfQuarter(s, 0)) + MonthFatalities(rows, MonthOfQuarter(s, 1))
           + MonthFatalities(rows, MonthOfQuarter(s, 2))) as real
       else 0.0) / (DaysInQuarter(s) as real)
  {
    QuarterTotal(rows, w, s);
  }

  /** The exclusive year bound of the aggregation: every quarter of the
      window's end year gets a conflict slot of 0, whatever the events. */
  lemma {:induction false} EndYearConflictIsZero(rows: seq<ConflictRow>, w: Window, s: Stamp)
    requires s.year == w.end.year
    ensures ConflictSlot(AggregateConflict(rows, w), s) == 0.0
  {
    LoopQuartersMember(w.start.year, w.end.year, w.start, w.end, s);
    QuarterTotal(rows, w, s);
    SlotOfZeroTotal(AggregateConflict(rows, w), s);
  }

  // ---------------------------------------------------------------------
  // Temperature
  // ---------------------------------------------------------------------

  function Readings(bs: seq<WeatherBucket>, year: int, q: Quarter): nat
  {
    |QuarterReadings(bs, year, q)|
  }

  /** The forward search for a year, from `year` on, whose quarter q has
      exactly three monthly weather buckets; `fuel` bounds the number of
      years advanced. */
  function TemperatureSearch(bs: seq<WeatherBucket>, year: int, q: Quarter, fuel: nat): (r: Option<int>)
    ensures r.Some? ==> year <= r.value && Readings(bs, r.value, q) == 3
    ensures r.Some? ==> forall y :: year <= y < r.value ==> Readings(bs, y, q) != 3
    ensures r.None? ==> forall y :: year <= y <= year + fuel ==> Readings(bs, y, q) != 3
    decreases fuel
  {
    if Readings(bs, year, q) == 3 then Some(year)
    else if fuel == 0 then None
    else TemperatureSearch(bs, year + 1, q, fuel - 1)
  }

  function BucketYear(b: WeatherBucket): int { b.year }

  /** Enough years to reach the last year of the table. */
  function SearchFuel(bs: seq<WeatherBucket>, year: int): nat
  {
    if |bs| == 0 then 0 else Max(0, Greatest(Column(bs, BucketYear)) - year)
  }

  lemma {:induction false} NoReadingsAfterTable(bs: seq<WeatherBucket>, year: int, y: int, q: Quarter)
    requires y > year + SearchFuel(bs, year)
    ensures Readings(bs, y, q) == 0
  {
    FilterNone(bs, (b: WeatherBucket) => b.year == y && b.quarter == q);
    if |bs| > 0 {
      assert forall i :: 0 <= i < |bs| ==> bs[i].year == Column(bs, BucketYear)[i];
    }
  }

  /** The bounded search fails exactly when `calculate_datasets`' unbounded `while` loop
      never ends: no year from `year` on has three buckets for the quarter. */
  lemma {:induction false} SearchFailsIffUnbounded(bs: seq<WeatherBucket>, year: int, q: Quarter)
    ensures TemperatureSearch(bs, year, q, SearchFuel(bs, year)).None? <==>
      forall y :: year <= y ==> Readings(bs, y, q) != 3
  {
    if TemperatureSearch(bs, year, q, SearchFuel(bs, year)).None? {
      forall y | year <= y ensures Readings(bs, y, q) != 3 {
        if y > year + SearchFuel(bs, year) {
          NoReadingsAfterTable(bs, year, y, q);
        }
      }
    }
  }

  /** The values if all are defined. */
  function Defined(ts: seq<Option<real>>): (r: Option<seq<real>>)
    ensures r.Some? <==> forall i :: 0 <= i < |ts| ==> ts[i].Some?
    ensures r.Some? ==> |r.value| == |ts| && forall i :: 0 <= i < |ts| ==> ts[i] == Some(r.value[i])
  {
    if |ts| == 0 then Some([])
    else match (ts[0], Defined(ts[1..]))
      case (Some(v), Some(vs)) => Some([v] + vs)
      case _ => None
  }

  function BucketReading(b: WeatherBucket): Option<real> { b.temperature }

  /** Mean temperature of the quarter's buckets in the year found; undefined
      if any of them is undefined. */
  function TemperatureSlot(bs: seq<WeatherBucket>, year: int, q: Quarter): (v: Option<real>)
    ensures v.Some? <==> Readings(bs, year, q) > 0 && forall i :: 0 <= i < Readings(bs, year, q) ==> QuarterReadings(bs, year, q)[i].temperature.Some?
  {
    match Defined(Column(QuarterReadings(bs, year, q), BucketReading))
    case None => None
    case Some(vs) => Mean(vs)
  }

  /** A defined temperature slot lies between any bounds of the quarter's
      bucket temperatures in the year searched. */
  lemma {:induction false} TemperatureSlotWithin(bs: seq<WeatherBucket>, year: int, q: Quarter, lo: real, hi: real)
    requires forall i :: 0 <= i < |bs| && bs[i].temperature.Some? ==> lo <= bs[i].temperature.value <= hi
    ensures TemperatureSlot(bs, year, q).Some? ==> lo <= TemperatureSlot(bs, year, q).value <= hi
  {
    var qr := QuarterReadings(bs, year, q);
    var ts := Column(qr, BucketReading);
    if TemperatureSlot(bs, year, q).Some? {
      var vs := Defined(ts).value;
      forall i | 0 <= i < |vs| ensures lo <= vs[i] <= hi {
        assert ts[i] == Some(vs[i]);
        var k :| 0 <= k < |bs| && bs[k] == qr[i];
      }
      MeanWithin(vs, lo, hi);
    }
  }

  // ---------------------------------------------------------------------
  // The feature vector and the quarter walk
  // ---------------------------------------------------------------------

  /** The feature vector of quarter s: one slot per food item, one per
      processed-food item, the conflict slot and the temperature slot, in
      that order; `None` where the temperature search never ends. */
  function Features(d: RegionData, s: Stamp): (f: Option<seq<Option<real>>>)
    ensures f.None? <==> forall y :: s.year <= y ==> Readings(d.weather, y, s.quarter) != 3
    ensures f.Some? ==> |f.value| == |d.foodItems| + |d.ffoodItems| + 2
    ensures f.Some? ==> forall i :: 0 <= i < |d.foodItems| ==> f.value[i] == PriceSlot(d.food, d.foodItems[i], s)
    ensures f.Some? ==> forall j :: 0 <= j < |d.ffoodItems| ==>
      f.value[|d.foodItems| + j] == PriceSlot(d.ffood, d.ffoodItems[j], s)
    ensures f.Some? ==> f.value[|d.foodItems| + |d.ffoodItems|] == Some(ConflictSlot(d.conflict, s))
    ensures f.Some? ==> exists y ::
      && s.year <= y && Readings(d.weather, y, s.quarter) == 3
      && (forall z :: s.year <= z < y ==> Readings(d.weather, z, s.quarter) != 3)
      && f.value[|d.foodItems| + |d.ffoodItems| + 1] == TemperatureSlot(d.weather, y, s.quarter)
  {
    SearchFailsIffUnbounded(d.weather, s.year, s.quarter);
    match TemperatureSearch(d.weather, s.year, s.quarter, SearchFuel(d.weather, s.year))
    case None => None
    case Some(y) =>
      var f := Vector(d, s, y);
      assert s.year <= y && Readings(d.weather, y, s.quarter) == 3;
      assert f[|d.foodItems| + |d.ffoodItems| + 1] == TemperatureSlot(d.weather, y, s.quarter);
      Some(f)
  }

  /** The slots in `calculate_datasets`' order, with the temperature of year y. */
  function Vector(d: RegionData, s: Stamp, y: int): (f: seq<Option<real>>)
    ensures |f| == |d.foodItems| + |d.ffoodItems| + 2
    ensures forall i :: 0 <= i < |d.foodItems| ==> f[i] == PriceSlot(d.food, d.foodItems[i], s)
    ensures forall j :: 0 <= j < |d.ffoodItems| ==> f[|d.foodItems| + j] == PriceSlot(d.ffood, d.ffoodItems[j], s)
    ensures f[|d.foodItems| + |d.ffoodItems|] == Some(ConflictSlot(d.conflict, s))
    ensures f[|d.foodItems| + |d.ffoodItems| + 1] == TemperatureSlot(d.weather, y, s.quarter)
  {
    var n := |d.foodItems|;
    var m := |d.ffoodItems|;
    var food := seq(n, i requires 0 <= i < n => PriceSlot(d.food, d.foodItems[i], s));
    var ffood := seq(m, j requires 0 <= j < m => PriceSlot(d.ffood, d.ffoodItems[j], s));
    food + ffood + [Some(ConflictSlot(d.conflict, s)), TemperatureSlot(d.weather, y, s.quarter)]
  }

  /** When every month of the weather table is defined, so is the
      temperature slot of every quarter whose search succeeds. */
  lemma {:induction false} TemperatureSlotDefined(d: RegionData, s: Stamp)
    requires forall i :: 0 <= i < |d.weather| ==> d.weather[i].temperature.Some?
    requires Features(d, s).Some?
    ensures Features(d, s).value[|d.foodItems| + |d.ffoodItems| + 1].Some?
  {
    var y :| && s.year <= y && Readings(d.weather, y, s.quarter) == 3
             && (forall z :: s.year <= z < y ==> Readings(d.weather, z, s.quarter) != 3)
             && Features(d, s).value[|d.foodItems| + |d.ffoodItems| + 1] == TemperatureSlot(d.weather, y, s.quarter);
    var qr := QuarterReadings(d.weather, y, s.quarter);
    forall i | 0 <= i < |qr| ensures qr[i].temperature.Some? {
      var k :| 0 <= k < |d.weather| && d.weather[k] == qr[i];
    }
  }

  /** One quarter's record; `None` where `calculate_datasets` loops forever. A record
      is labelled iff exactly one classification has its quarter, with that
      row's percentages, and its vector takes the temperature of the first
      year from the quarter's own that has three monthly buckets. */
  function RecordAt(d: RegionData, s: Stamp): (r: Option<QuarterRecord>)
    ensures r.None? <==> forall y :: s.year <= y ==> Readings(d.weather, y, s.quarter) != 3
    ensures r.Some? ==> (r.value.labels.Some? <==> exists k :: OnlyAt(d.ipc, IpcIn(s), k))
    ensures r.Some? ==> forall k :: OnlyAt(d.ipc, IpcIn(s), k) ==> r.value.labels == Some(LabelsOf(d.ipc[k]))
    ensures r.Some? ==> |r.value.features| == |d.foodItems| + |d.ffoodItems| + 2
    ensures r.Some? ==> exists y ::
      && s.year <= y && Readings(d.weather, y, s.quarter) == 3
      && (forall z :: s.year <= z < y ==> Readings(d.weather, z, s.quarter) != 3)
      && r.value.features == Vector(d, s, y)
  {
    match Features(d, s)
    case None => None
    case Some(f) => Some(QuarterRecord(LabelsAt(d.ipc, s), f))
  }

  /** The records of the quarters qs, in order. */
  function Records(d: RegionData, qs: seq<Stamp>): (recs: seq<Option<QuarterRecord>>)
    ensures |recs| == |qs| && forall i :: 0 <= i < |qs| ==> recs[i] == RecordAt(d, qs[i])
  {
    seq(|qs|, i requires 0 <= i < |qs| => RecordAt(d, qs[i]))
  }

  /** The walk over the quarters qs with their records: an entry per
      quarter, keyed by year*10+quarter, until the first quarter whose
      record is undefined (whose temperature search never ends). */
  function BuildEntries(qs: seq<Stamp>, recs: seq<Option<QuarterRecord>>): (w: Walk)
    requires |recs| == |qs|
    ensures w.Built? <==> forall i :: 0 <= i < |qs| ==> recs[i].Some?
    ensures w.Built? ==> |w.entries| == |qs| && forall i :: 0 <= i < |qs| ==>
      w.entries[i] == Entry(Key(qs[i]), recs[i].value)
    ensures w.Hangs? ==> exists i :: FirstHang(recs, i) && qs[i] == w.at
  {
    if |qs| == 0 then Built([])
    else match recs[0]
      case None =>
        assert FirstHang(recs, 0);
        Hangs(qs[0])
      case Some(rec) =>
        var rest := BuildEntries(qs[1..], recs[1..]);
        assert forall i :: 1 <= i < |qs| ==> qs[i] == qs[1..][i - 1] && recs[i] == recs[1..][i - 1];
        match rest
        case Hangs(s) =>
          FirstHangTail(qs, recs);
          Hangs(s)
        case Built(es) =>
          Built([Entry(Key(qs[0]), rec)] + es)
  }

  /** Position i holds the first undefined record. */
  ghost predicate FirstHang(recs: seq<Option<QuarterRecord>>, i: int)
  {
    0 <= i < |recs| && recs[i].None? && forall j :: 0 <= j < i ==> recs[j].Some?
  }

  lemma {:induction false} FirstHangTail(qs: seq<Stamp>, recs: seq<Option<QuarterRecord>>)
    requires |recs| == |qs| > 0 && recs[0].Some?
    ensures forall k :: FirstHang(recs[1..], k) ==> FirstHang(recs, k + 1) && qs[k + 1] == qs[1..][k]
  {
    forall k | FirstHang(recs[1..], k) ensures FirstHang(recs, k + 1) {
      forall j | 0 <= j < k + 1 ensures recs[j].Some? {
        if j > 0 {
          assert recs[j] == recs[1..][j - 1];
        }
      }
    }
  }

  /** The dataset of a loaded region: the walk from its (tightened) start
      quarter through its end quarter. */
  function RegionDataset(d: RegionData): Walk
  {
    var qs := QuarterSpan(d.start, d.end);
    BuildEntries(qs, Records(d, qs))
  }

  /** The keys of a dataset, in order. */
  function Keys(es: seq<Entry>): seq<int>
  {
    Column(es, (e: Entry) => e.key)
  }

  /** The keys of a built dataset are exactly year*10+quarter of the quarters
      of the window, with none missing, in strictly increasing order (so no
      key repeats), one per quarter of the window. */
  lemma {:induction false} DatasetKeys(d: RegionData, es: seq<Entry>)
    requires RegionDataset(d) == Built(es)
    ensures |es| == if Ord(d.end) < Ord(d.start) then 0 else Ord(d.end) - Ord(d.start) + 1
    ensures forall i, j :: 0 <= i < j < |es| ==> es[i].key < es[j].key
    ensures forall s :: Key(s) in Keys(es) <==> InWindow(s, Window(d.start, d.end))
  {
    var qs := QuarterSpan(d.start, d.end);
    WalkKeys(d.start, d.end, Records(d, qs), es);
  }

  /** The keys of a completed walk over the quarters from start to end,
      whatever the records. */
  lemma {:induction false} WalkKeys(start: Stamp, end: Stamp, recs: seq<Option<QuarterRecord>>, es: seq<Entry>)
    requires |recs| == |QuarterSpan(start, end)|
    requires BuildEntries(QuarterSpan(start, end), recs) == Built(es)
    ensures |es| == if Ord(end) < Ord(start) then 0 else Ord(end) - Ord(start) + 1
    ensures forall i, j :: 0 <= i < j < |es| ==> es[i].key < es[j].key
    ensures forall s :: Key(s) in Keys(es) <==> InWindow(s, Window(start, end))
  {
    var qs := QuarterSpan(start, end);
    SpanIndexed(start, end);
    SpanIncreasing(start, end);
    forall i, j | 0 <= i < j < |es| ensures es[i].key < es[j].key {
      KeyFollowsOrd(qs[i], qs[j]);
    }
    forall s ensures Key(s) in Keys(es) <==> InWindow(s, Window(start, end)) {
      SpanMember(start, end, s);
      if Key(s) in Keys(es) {
        var i :| 0 <= i < |es| && Keys(es)[i] == Key(s);
        KeyFollowsOrd(s, qs[i]);
      }
    }
  }

  /** Every key decodes back to its quarter: the year is key / 10 and the
      quarter key % 10. */
  lemma {:induction false} KeyDecodes(s: Stamp)
    ensures Key(s) / 10 == s.year && Key(s) % 10 == s.quarter
  {
  }

  /** The entry of a quarter of the window carries the labels of the
      quarter's single classification if it has one and no labels otherwise,
      and a feature vector of the region's fixed length. */
  lemma {:induction false} EntryContents(d: RegionData, es: seq<Entry>, i: int)
    requires RegionDataset(d) == Built(es) && 0 <= i < |es|
    ensures var s := QuarterSpan(d.start, d.end)[i];
            && (es[i].record.labels.Some? <==> exists k :: OnlyAt(d.ipc, IpcIn(s), k))
            && |es[i].record.features| == |d.foodItems| + |d.ffoodItems| + 2
  {
  }

  // ---------------------------------------------------------------------
  // All regions
  // ---------------------------------------------------------------------

  /** The datasets of the listed regions in list order. A region the loader
      rejected maps to `None`; the first region whose walk hangs stops the
      whole computation. */
  function CalculateDatasets(regions: seq<string>, byRegion: map<string, Option<RegionData>>): (c: Calculation)
    requires forall i :: 0 <= i < |regions| ==> regions[i] in byRegion
    ensures c.Finished? ==> forall r :: r in c.byRegion <==> r in regions
    ensures c.Finished? ==> forall r :: r in c.byRegion ==>
      (byRegion[r].None? <==> c.byRegion[r].None?)
      && (byRegion[r].Some? ==> RegionDataset(byRegion[r].value) == Built(c.byRegion[r].value))
    ensures c.Diverges? ==>
      && c.region in regions && byRegion[c.region].Some?
      && RegionDataset(byRegion[c.region].value) == Hangs(c.at)
    ensures c.Finished? <==> forall i :: 0 <= i < |regions| ==>
      byRegion[regions[i]].None? || RegionDataset(byRegion[regions[i]].value).Built?
  {
    if |regions| == 0 then Finished(map[])
    else
      var region := regions[0];
      assert forall i :: 1 <= i < |regions| ==> regions[i] == regions[1..][i - 1];
      var here: Option<Walk> := match byRegion[region]
        case None => None
        case Some(d) => Some(RegionDataset(d));
      if here.Some? && here.value.Hangs? then Diverges(region, here.value.at)
      else
        match CalculateDatasets(regions[1..], byRegion)
        case Diverges(r, s) => Diverges(r, s)
        case Finished(m) =>
          Finished(m[region := if here.None? then None else Some(here.value.entries)])
  }

  /** A region rejected by the sufficiency gate has no dataset: the loader
      reports it insufficient, and the calculation maps it to `None`. */
  lemma {:induction false} InsufficientRegionSkipped(src: Sources, cfg: Config, regions: seq<string>,
                                  byRegion: map<string, Option<RegionData>>, region: string)
    requires forall i :: 0 <= i < |regions| ==> regions[i] in byRegion
    requires region in regions && region in byRegion
    requires GetFamineData(src, region, cfg) == Insufficient && byRegion[region] == None
    requires CalculateDatasets(regions, byRegion).Finished?
    ensures FoodWindow(src, region).Some?
    ensures |ClippedIpc(src, region, FoodWindow(src, region).value)| <= MinClassifications
    ensures CalculateDatasets(regions, byRegion).byRegion[region] == None
  {
  }
}
