/** Loading one region: the food-price table fixes the window, every other
    table is clipped to it, conflict and weather are aggregated per month,
    the region is rejected when it has too few classifications, and the
    start of the window is tightened to the classification data. */
module FamineData {
  import opened Calendar
  import opened Tables
  import opened Windows
  import opened Items
  import opened ConflictAggregation
  import opened WeatherAggregation

  /** The five input tables, as read. */
  datatype Sources = Sources(
    food: seq<PriceRow>,
    ffood: seq<PriceRow>,
    conflict: seq<ConflictRow>,
    ipc: seq<IpcRow>,
    weather: seq<WeatherRow>)

  /** The allow-lists: the processed-food items and the weather stations used. */
  datatype Config = Config(wantedFood: set<string>, wantedStations: set<string>)

  /** What the loader hands to the dataset builder for one region. */
  datatype RegionData = RegionData(
    food: seq<PriceRow>,
    ffood: seq<PriceRow>,
    conflict: seq<ConflictBucket>,
    ipc: seq<IpcRow>,
    weather: seq<WeatherBucket>,
    foodItems: seq<string>,
    ffoodItems: seq<string>,
    start: Stamp,
    end: Stamp)

  /** The loader's result. `Insufficient` is `get_famine_data`'s `None`;
      the two `No...Rows` cases are where its `min` of an empty column
      raises. */
  datatype Loading =
    | Loaded(data: RegionData)
    | Insufficient
    | NoFoodRows
    | NoWeatherRows

  /** Least number of classification rows a region must have, exclusive. */
  const MinClassifications := 12

  function PriceAt(r: PriceRow): Stamp { r.at }
  function ConflictAt(r: ConflictRow): Stamp { r.at }
  function IpcAt(r: IpcRow): Stamp { r.at }

  /** `sorted(set(table.Item))`. */
  function ItemList(rows: seq<PriceRow>): (items: seq<string>)
    ensures StrictlySorted(items)
    ensures forall y :: y in items <==> exists i :: 0 <= i < |rows| && rows[i].item == y
  {
    var names := Column(rows, Item);
    assert forall y :: y in names <==> exists i :: 0 <= i < |rows| && rows[i].item == y by {
      forall y | y in names ensures exists i :: 0 <= i < |rows| && rows[i].item == y {
        var i :| 0 <= i < |names| && names[i] == y;
      }
    }
    SortedDistinct(names)
  }

  // ---------------------------------------------------------------------
  // The region's tables
  // ---------------------------------------------------------------------

  function RegionFood(src: Sources, region: string): seq<PriceRow>
  {
    Filter(src.food, (r: PriceRow) => r.region == region)
  }

  /** The food window; undefined when the region has no food prices. */
  function FoodWindow(src: Sources, region: string): Option<Window>
  {
    Resolve(Column(RegionFood(src, region), PriceAt))
  }

  function ClippedFfood(src: Sources, region: string, cfg: Config, w: Window): seq<PriceRow>
  {
    Clip(Filter(src.ffood, (r: PriceRow) => r.item in cfg.wantedFood && r.region == region), PriceAt, w)
  }

  function ClippedConflict(src: Sources, region: string, w: Window): seq<ConflictRow>
  {
    Clip(Filter(src.conflict, (r: ConflictRow) => r.region == region), ConflictAt, w)
  }

  function ClippedIpc(src: Sources, region: string, w: Window): seq<IpcRow>
  {
    Clip(Filter(src.ipc, (r: IpcRow) => r.region == region), IpcAt, w)
  }

  /** Weather is selected by station, not by region. */
  function ClippedWeather(src: Sources, cfg: Config, w: Window): seq<WeatherRow>
  {
    Clip(Filter(src.weather, (r: WeatherRow) => r.station in cfg.wantedStations), ReadingAt, w)
  }

  /** Every row of a clipped, region-selected table is a row of the input
      table of that region lying in the window, and every such row is kept. */
  lemma {:induction false} ClippedIpcMember(src: Sources, region: string, w: Window, x: IpcRow)
    ensures x in ClippedIpc(src, region, w) <==> x in src.ipc && x.region == region && InWindow(x.at, w)
  {
    var p := (r: IpcRow) => r.region == region;
    var own := Filter(src.ipc, p);
    ClipMember(own, IpcAt, w, x);
    if x in src.ipc && p(x) {
      var i :| 0 <= i < |src.ipc| && src.ipc[i] == x;
    }
    if x in own {
      var i :| 0 <= i < |own| && own[i] == x;
    }
  }

  // ---------------------------------------------------------------------
  // Gate and start tightening
  // ---------------------------------------------------------------------

  /** The sufficiency gate: strictly more than twelve classifications. */
  predicate Sufficient(ipc: seq<IpcRow>)
  {
    |ipc| > MinClassifications
  }

  function Max(a: int, b: int): (m: int)
    ensures m >= a && m >= b && (m == a || m == b)
  {
    if a >= b then a else b
  }

  /** The tightened start: the year becomes the later of the old start year
      and the earliest classification year; the quarter becomes the later of
      the OLD start quarter and the earliest classification quarter of that
      new year. Undefined where `get_famine_data`'s `min` would see an empty column. */
  function TightenStart(start: Stamp, ipc: seq<IpcRow>): (r: Option<Stamp>)
    ensures r.Some? ==> r.value.year >= start.year && r.value.quarter >= start.quarter
    ensures r.Some? ==> exists i :: 0 <= i < |ipc| && ipc[i].at.year == r.value.year && ipc[i].at.quarter <= r.value.quarter
    ensures r.Some? ==> forall i :: 0 <= i < |ipc| && ipc[i].at.year == r.value.year ==>
      r.value.quarter <= ipc[i].at.quarter || r.value.quarter == start.quarter
    ensures (|ipc| > 0 && forall i :: 0 <= i < |ipc| ==> start.year <= ipc[i].at.year) ==>
      r.Some? && forall i :: 0 <= i < |ipc| ==> r.value.year <= ipc[i].at.year
  {
    if |ipc| == 0 then None
    else
      var stamps := Column(ipc, IpcAt);
      var y := Max(start.year, Least(Column(stamps, YearOf)));
      var qs := QuartersIn(stamps, y);
      if |qs| == 0 then
        None
      else
        var q := Least(qs);
        assert Stamp(y, q) in stamps;
        Some(Stamp(y, if start.quarter >= q then start.quarter else q))
  }

  /** The quirk of the tightening: when the classifications begin in a
      later year than the food prices, the food start quarter still bounds
      the new start quarter, so the early quarters of that year are skipped
      even where they are classified. */
  lemma {:induction false} TightenKeepsOldQuarter()
    ensures TightenStart(Stamp(2015, 3), [IpcRow("r", Stamp(2016, 1), 0.2, 0.1, 0.0)]) == Some(Stamp(2016, 3))
  {
    var ipc := [IpcRow("r", Stamp(2016, 1), 0.2, 0.1, 0.0)];
    var stamps := Column(ipc, IpcAt);
    assert Column(stamps, YearOf) == [2016];
    assert QuartersIn(stamps, 2016) == [1] by {
      assert stamps[1..] == [];
    }
  }

  // ---------------------------------------------------------------------
  // The loader
  // ---------------------------------------------------------------------

  /** The data of one region, in `get_famine_data`'s order of failure: no food
      prices, then no weather readings inside the window, then the gate. */
  function GetFamineData(src: Sources, region: string, cfg: Config): (r: Loading)
    ensures r == NoFoodRows <==> forall i :: 0 <= i < |src.food| ==> src.food[i].region != region
    ensures r == NoWeatherRows <==> FoodWindow(src, region).Some? && |ClippedWeather(src, cfg, FoodWindow(src, region).value)| == 0
    ensures r == Insufficient <==>
      && FoodWindow(src, region).Some?
      && |ClippedWeather(src, cfg, FoodWindow(src, region).value)| > 0
      && !Sufficient(ClippedIpc(src, region, FoodWindow(src, region).value))
    ensures r.Loaded? ==> LoadedShape(src, region, cfg, r.data)
  {
    var food := RegionFood(src, region);
    FilterNone(src.food, (x: PriceRow) => x.region == region);
    match Resolve(Column(food, PriceAt))
    case None => NoFoodRows
    case Some(w) =>
      var weather := ClippedWeather(src, cfg, w);
      if |weather| == 0 then NoWeatherRows
      else
        var ipc := ClippedIpc(src, region, w);
        if !Sufficient(ipc) then Insufficient
        else
          TightenAfterClip(src, region, w);
          var d := RegionData(
            food,
            ClippedFfood(src, region, cfg, w),
            AggregateConflict(ClippedConflict(src, region, w), w),
            ipc,
            AggregateWeather(weather, Resolve(Column(weather, ReadingAt)).value),
            ItemList(food),
            ItemList(ClippedFfood(src, region, cfg, w)),
            TightenStart(w.start, ipc).value,
            w.end);
          LoadedShapeHolds(src, region, cfg, w, d);
          Loaded(d)
  }

  /** What a loaded region satisfies. */
  ghost predicate LoadedShape(src: Sources, region: string, cfg: Config, d: RegionData)
  {
    && FoodWindow(src, region).Some?
    && var w := FoodWindow(src, region).value;
    // The window closes at the last food quarter; the start never moves earlier.
    && d.end == w.end
    && Some(d.start) == TightenStart(w.start, d.ipc)
    && Ord(w.start) <= Ord(d.start)
    // The tables: the region's food prices, and the clipped processed-food
    // prices and classifications, rows, order and multiplicity alike.
    && d.food == RegionFood(src, region)
    && d.ffood == ClippedFfood(src, region, cfg, w)
    && d.ipc == ClippedIpc(src, region, w)
    && IpcShape(src, region, w, d)
    && ItemShape(d)
    && FfoodShape(src, region, cfg, w, d)
    // The monthly tables.
    && d.conflict == AggregateConflict(ClippedConflict(src, region, w), w)
    && |ClippedWeather(src, cfg, w)| > 0
    && d.weather == AggregateWeather(ClippedWeather(src, cfg, w), Resolve(Column(ClippedWeather(src, cfg, w), ReadingAt)).value)
    && |d.weather| > 0
  }

  /** The classifications are the region's rows inside the window, more
      than twelve; some lies in the start year and none before it. */
  ghost predicate IpcShape(src: Sources, region: string, w: Window, d: RegionData)
  {
    && Sufficient(d.ipc)
    && (forall x :: x in d.ipc <==> x in src.ipc && x.region == region && InWindow(x.at, w))
    && (exists i :: 0 <= i < |d.ipc| && d.ipc[i].at.year == d.start.year)
    && (forall i :: 0 <= i < |d.ipc| ==> d.start.year <= d.ipc[i].at.year)
  }

  /** The item lists are the sorted distinct item names of the price tables. */
  ghost predicate ItemShape(d: RegionData)
  {
    && StrictlySorted(d.foodItems) && StrictlySorted(d.ffoodItems)
    && (forall y :: y in d.foodItems <==> exists i :: 0 <= i < |d.food| && d.food[i].item == y)
    && (forall y :: y in d.ffoodItems <==> exists i :: 0 <= i < |d.ffood| && d.ffood[i].item == y)
  }

  /** The processed-food prices are wanted items of the region inside the window. */
  ghost predicate FfoodShape(src: Sources, region: string, cfg: Config, w: Window, d: RegionData)
  {
    forall i :: 0 <= i < |d.ffood| ==>
      d.ffood[i].region == region && d.ffood[i].item in cfg.wantedFood && InWindow(d.ffood[i].at, w)
  }

  lemma {:induction false} TightenAfterClip(src: Sources, region: string, w: Window)
    requires |ClippedIpc(src, region, w)| > 0
    ensures var ipc := ClippedIpc(src, region, w);
            TightenStart(w.start, ipc).Some?
            && forall i :: 0 <= i < |ipc| ==> TightenStart(w.start, ipc).value.year <= ipc[i].at.year
  {
    var ipc := ClippedIpc(src, region, w);
    forall i | 0 <= i < |ipc| ensures w.start.year <= ipc[i].at.year {
      ClippedIpcMember(src, region, w, ipc[i]);
    }
  }

  lemma {:induction false} IpcShapeHolds(src: Sources, region: string, w: Window, d: RegionData)
    requires d.ipc == ClippedIpc(src, region, w) && Sufficient(d.ipc)
    requires TightenStart(w.start, d.ipc) == Some(d.start)
    ensures IpcShape(src, region, w, d)
  {
    TightenAfterClip(src, region, w);
    forall x ensures x in d.ipc <==> x in src.ipc && x.region == region && InWindow(x.at, w) {
      ClippedIpcMember(src, region, w, x);
    }
  }

  lemma {:induction false} FfoodShapeHolds(src: Sources, region: string, cfg: Config, w: Window, d: RegionData)
    requires d.ffood == ClippedFfood(src, region, cfg, w)
    ensures FfoodShape(src, region, cfg, w, d)
  {
    var p := (r: PriceRow) => r.item in cfg.wantedFood && r.region == region;
    var own := Filter(src.ffood, p);
    forall i | 0 <= i < |d.ffood|
      ensures d.ffood[i].region == region && d.ffood[i].item in cfg.wantedFood && InWindow(d.ffood[i].at, w)
    {
      ClipMember(own, PriceAt, w, d.ffood[i]);
      var k :| 0 <= k < |own| && own[k] == d.ffood[i];
    }
  }

  lemma {:induction false} LoadedShapeHolds(src: Sources, region: string, cfg: Config, w: Window, d: RegionData)
    requires FoodWindow(src, region) == Some(w)
    requires |ClippedWeather(src, cfg, w)| > 0
    requires Sufficient(ClippedIpc(src, region, w))
    requires d.food == RegionFood(src, region)
    requires d.ffood == ClippedFfood(src, region, cfg, w)
    requires d.conflict == AggregateConflict(ClippedConflict(src, region, w), w)
    requires d.ipc == ClippedIpc(src, region, w)
    requires d.weather == AggregateWeather(ClippedWeather(src, cfg, w), Resolve(Column(ClippedWeather(src, cfg, w), ReadingAt)).value)
    requires d.foodItems == ItemList(d.food) && d.ffoodItems == ItemList(d.ffood)
    requires TightenStart(w.start, d.ipc) == Some(d.start)
    requires d.end == w.end
    ensures LoadedShape(src, region, cfg, d)
  {
    IpcShapeHolds(src, region, w, d);
    FfoodShapeHolds(src, region, cfg, w, d);
    WeatherSpanNonEmpty(ClippedWeather(src, cfg, w));
  }

  /** The weather span of a non-empty table covers at least one quarter. */
  lemma {:induction false} WeatherSpanNonEmpty(rows: seq<WeatherRow>)
    requires |rows| > 0
    ensures |AggregateWeather(rows, Resolve(Column(rows, ReadingAt)).value)| > 0
  {
    var span := Resolve(Column(rows, ReadingAt)).value;
    assert InWindow(Column(rows, ReadingAt)[0], span);
    SpanMember(span.start, span.end, span.start);
  }

  /** With well-formed weather readings (the Quarter column agrees with the
      Month column) a loaded region's monthly weather table has a defined
      temperature in every month. */
  lemma {:induction false} LoadedWeatherDefined(src: Sources, region: string, cfg: Config)
    requires GetFamineData(src, region, cfg).Loaded?
    requires Consistent(src.weather)
    ensures var d := GetFamineData(src, region, cfg).data;
            forall i :: 0 <= i < |d.weather| ==> d.weather[i].temperature.Some?
  {
    var d := GetFamineData(src, region, cfg).data;
    assert LoadedShape(src, region, cfg, d);
    var w := FoodWindow(src, region).value;
    ClippedWeatherConsistent(src, cfg, w);
    AllMonthsDefined(ClippedWeather(src, cfg, w));
  }

  lemma {:induction false} ClippedWeatherConsistent(src: Sources, cfg: Config, w: Window)
    requires Consistent(src.weather)
    ensures Consistent(ClippedWeather(src, cfg, w))
  {
    var rows := ClippedWeather(src, cfg, w);
    var own := Filter(src.weather, (r: WeatherRow) => r.station in cfg.wantedStations);
    forall i | 0 <= i < |rows| ensures rows[i].at.quarter == QuarterOf(rows[i].month) {
      assert rows[i] in own;
      var k :| 0 <= k < |own| && own[k] == rows[i];
      var m :| 0 <= m < |src.weather| && src.weather[m] == own[k];
    }
  }
}
