/** The data flow of the economic calendar screen, without any drawing: the
    fixed date window, the first page shown from the cache on activation, the
    fetch request handed to the background worker, the merge of a fetched
    payload, the "Load Rest" button, and the text of each table row. The grid
    is modelled as its list of rows, each nine cell texts plus the flag image
    drawn in the currency cell. */
module CalendarScreen {
  import opened Values
  import opened Dates
  import opened CacheHandling
  import opened CountryFlags

  /** Rows shown before "Load Rest" is pressed. */
  const InitialRowCount := 50

  /** The cache size the screen's flag handler is built with. */
  const DefaultFlagCacheSize := 100

  const NotAvailable := "N/A"

  /** The inclusive range the screen asks for: from one day before now to
      seven days after, at now's time of day. */
  datatype DateWindow = DateWindow(start: Instant, end: Instant)

  /** The dates handed to the background worker, as 'DD/MM/YYYY'. */
  datatype FetchRequest = FetchRequest(fromDate: string, toDate: string)

  /** One grid row: the nine cell texts, and the flag drawn beside the
      currency code when the lookup found one. */
  datatype Row = Row(cells: seq<string>, flag: Option<Bitmap>)

  /** The flag cache and the grid rows after the table is redrawn. */
  datatype Rendered = Rendered(cache: OrderedMap, rows: seq<Row>)

  /** now - timedelta(days=1) and now + timedelta(days=7); None when either
      leaves the years datetime can hold (OverflowError). */
  function Window(now: Instant): (w: Option<DateWindow>)
    requires ValidInstant(now)
    ensures w.Some? <==> Representable(PrevDay(now.date)) && Representable(AddDays(now.date, 7))
    ensures w.Some? ==> w.value == DateWindow(Instant(PrevDay(now.date), now.micros),
                                              Instant(AddDays(now.date, 7), now.micros))
    ensures w.Some? ==> ValidInstant(w.value.start) && ValidInstant(w.value.end)
  {
    var first := PrevDay(now.date);
    var last := AddDays(now.date, 7);
    if Representable(first) && Representable(last) then
      Some(DateWindow(Instant(first, now.micros), Instant(last, now.micros)))
    else
      None
  }

  /** The two dates of the window in the format the provider expects; each
      text reads back as its date. */
  function RequestFor(w: DateWindow): (r: FetchRequest)
    requires Representable(w.start.date) && Representable(w.end.date)
    ensures |r.fromDate| == 10 && |r.toDate| == 10
    ensures ParseDate(r.fromDate) == Some(w.start.date) && ParseDate(r.toDate) == Some(w.end.date)
  {
    ParseFormatRoundTrip(w.start.date);
    ParseFormatRoundTrip(w.end.date);
    FetchRequest(FormatDate(w.start.date), FormatDate(w.end.date))
  }

  /** data[:50]. */
  function FirstPage(records: seq<EventRecord>): (page: seq<EventRecord>)
    ensures |page| == if |records| < InitialRowCount then |records| else InitialRowCount
    ensures page == records[..|page|]
  {
    if |records| <= InitialRowCount then records else records[..InitialRowCount]
  }

  /** `field or 'N/A'`: a cell is never blank, and a non-empty text shows
      as it is. */
  function TextOrNotAvailable(field: Option<string>): (cell: string)
    ensures cell != ""
    ensures Present(field) ==> cell == field.value
  {
    if Present(field) then field.value else NotAvailable
  }

  /** `str(field) if field else 'N/A'`: a cell is never blank, and a non-zero
      integer shows as a decimal that reads back as it. */
  function ValueOrNotAvailable(field: Value): (cell: string)
    ensures cell != ""
    ensures field.Integer? && field.n != 0 ==> IsDecimal(cell) && DecimalValue(cell) == field.n
  {
    if Truthy(field) then TruthyValueTextNonEmpty(field); ValueText(field) else NotAvailable
  }

  /** The texts of one row, column by column: Date, Time, Zone, Currency,
      Importance, Event, Actual, Forecast, Previous. */
  function CellTexts(r: EventRecord): (cells: seq<string>)
    ensures |cells| == 9 && cells[0] == r.date
  {
    [r.date,
     TextOrNotAvailable(r.time),
     TextOrNotAvailable(r.zone),
     TextOrNotAvailable(r.currency),
     TextOrNotAvailable(r.importance),
     TextOrNotAvailable(r.event),
     ValueOrNotAvailable(r.actual),
     ValueOrNotAvailable(r.forecast),
     ValueOrNotAvailable(r.previous)]
  }

  /** One row of update_table: the record's texts, and a flag looked up only
      for a non-empty currency code; a code already cached shows its cached
      flag and leaves the cache as it was. */
  function RenderRow(m: OrderedMap, r: EventRecord, urls: map<string, string>, source: FlagSource): Rendered
    requires WellFormed(m)
  {
    if Present(r.currency) then
      var lookup := FetchStep(m, r.currency.value, urls, source);
      Rendered(lookup.cache, [Row(CellTexts(r), lookup.image)])
    else
      Rendered(m, [Row(CellTexts(r), None)])
  }

  /** update_table: the rows of `data` in order, threading the flag cache
      through the lookups. */
  function Render(m: OrderedMap, data: seq<EventRecord>, urls: map<string, string>, source: FlagSource): (out: Rendered)
    requires WellFormed(m)
    ensures WellFormed(out.cache)
    decreases |data|
  {
    if data == [] then Rendered(m, [])
    else
      var before := Render(m, data[..|data| - 1], urls, source);
      var row := RenderRow(before.cache, data[|data| - 1], urls, source);
      Rendered(row.cache, before.rows + row.rows)
  }

  /** What the background worker posts back: the records when the provider
      returned a non-empty frame, None when it returned nothing, an empty
      frame, or raised. */
  datatype ProviderResult = Raised | NoData | Frame(records: seq<EventRecord>)

  function WorkerPayload(result: ProviderResult): (payload: Option<seq<EventRecord>>)
    ensures payload.Some? <==> result.Frame? && result.records != []
    ensures payload.Some? ==> payload.value == result.records
  {
    match result
    case Frame(records) => if records != [] then Some(records) else None
    case _ => None
  }

  class EconomicCalendarScreen {
    const cacheHandler: CacheHandler
    const flagHandler: CountryFlagHandler
    /** The grid's rows. */
    var table: seq<Row>
    /** Whether the "Load Rest" button is shown. */
    var loadRestVisible: bool
    /** The fetches handed to background workers, oldest first. */
    var requests: seq<FetchRequest>

    ghost predicate Valid()
      reads this, flagHandler
    {
      flagHandler.Valid()
    }

    /** A new screen: the cache loaded from its file, an empty flag cache, an
        empty grid and the "Load Rest" button shown. */
    constructor (stored: StoredFile, currencyFlags: map<string, string>)
      ensures Valid() && fresh(cacheHandler) && fresh(flagHandler)
      ensures cacheHandler.data == LoadCache(stored) && cacheHandler.file == stored
      ensures flagHandler.flagCache == Empty && flagHandler.currencyFlags == currencyFlags
      ensures flagHandler.cacheSize == DefaultFlagCacheSize
      ensures table == [] && loadRestVisible && requests == []
    {
      cacheHandler := new CacheHandler(stored);
      flagHandler := new CountryFlagHandler(currencyFlags, DefaultFlagCacheSize);
      table := [];
      loadRestVisible := true;
      requests := [];
    }

    /** Replaces the grid with one row per record, looking up the flag of
        each non-empty currency code. */
    method UpdateTable(data: seq<EventRecord>, source: FlagSource)
      requires Valid()
      modifies this, flagHandler
      ensures Valid()
      ensures Rendered(flagHandler.flagCache, table) ==
              Render(old(flagHandler.flagCache), data, flagHandler.currencyFlags, source)
      ensures loadRestVisible == old(loadRestVisible) && requests == old(requests)
    {
      ghost var cache0 := flagHandler.flagCache;
      table := [];
      var i := 0;
      while i < |data|
        invariant 0 <= i <= |data|
        invariant WellFormed(flagHandler.flagCache)
        invariant Rendered(flagHandler.flagCache, table) == Render(cache0, data[..i], flagHandler.currencyFlags, source)
        invariant loadRestVisible == old(loadRestVisible) && requests == old(requests)
      {
        assert data[..i + 1][..i] == data[..i];
        var row := data[i];
        ghost var tableBefore := table;
        ghost var step := RenderRow(flagHandler.flagCache, row, flagHandler.currencyFlags, source);
        assert Render(cache0, data[..i + 1], flagHandler.currencyFlags, source) == Rendered(step.cache, table + step.rows);
        var flag: Option<Bitmap> := None;
        if Present(row.currency) {
          flag := flagHandler.FetchFlagImage(row.currency.value, source);
        }
        table := table + [Row(CellTexts(row), flag)];
        assert flagHandler.flagCache == step.cache && table == tableBefore + step.rows;
        i := i + 1;
      }
      assert data[..i] == data;
    }

    /** Activation: shows the first page of the cached window, then starts
        the background fetch for the window. An overflowing window or a
        stored date that does not parse raises before anything changes. */
    method StartDataFetch(now: Instant, source: FlagSource)
      requires Valid() && ValidInstant(now)
      modifies this, flagHandler
      ensures Valid() && loadRestVisible == old(loadRestVisible)
      ensures Window(now).None? || RangeQuery(cacheHandler.data, Window(now).value.start, Window(now).value.end).None? ==>
                table == old(table) && flagHandler.flagCache == old(flagHandler.flagCache) && requests == old(requests)
      ensures Window(now).Some? && RangeQuery(cacheHandler.data, Window(now).value.start, Window(now).value.end).Some? ==>
                var w := Window(now).value;
                var cached := RangeQuery(cacheHandler.data, w.start, w.end).value;
                requests == old(requests) + [RequestFor(w)] &&
                (cached == [] ==> table == old(table) && flagHandler.flagCache == old(flagHandler.flagCache)) &&
                (cached != [] ==> Rendered(flagHandler.flagCache, table) ==
                                  Render(old(flagHandler.flagCache), FirstPage(cached), flagHandler.currencyFlags, source))
    {
      var window := Window(now);
      if window.None? {
        return;
      }
      var startDate, endDate := window.value.start, window.value.end;
      var cachedData := cacheHandler.GetCachedData(startDate, endDate);
      if cachedData.None? {
        return;
      }
      if cachedData.value != [] {
        UpdateTable(FirstPage(cachedData.value), source);
      }
      var formattedStart := FormatDate(startDate.date);
      var formattedEnd := FormatDate(endDate.date);
      requests := requests + [FetchRequest(formattedStart, formattedEnd)];
    }

    /** "Load Rest": shows every cached record of the window and hides the
        button, only when there is at least one. */
    method LoadRestData(now: Instant, source: FlagSource)
      requires Valid() && ValidInstant(now)
      modifies this, flagHandler
      ensures Valid() && requests == old(requests)
      ensures Window(now).None? ||
              RangeQuery(cacheHandler.data, Window(now).value.start, Window(now).value.end) in {None, Some([])} ==>
                table == old(table) && flagHandler.flagCache == old(flagHandler.flagCache) &&
                loadRestVisible == old(loadRestVisible)
      ensures Window(now).Some? &&
              RangeQuery(cacheHandler.data, Window(now).value.start, Window(now).value.end) !in {None, Some([])} ==>
                var w := Window(now).value;
                Rendered(flagHandler.flagCache, table) ==
                  Render(old(flagHandler.flagCache), RangeQuery(cacheHandler.data, w.start, w.end).value,
                         flagHandler.currencyFlags, source) &&
                !loadRestVisible
    {
      var window := Window(now);
      if window.None? {
        return;
      }
      var cachedData := cacheHandler.GetCachedData(window.value.start, window.value.end);
      if cachedData.Some? && cachedData.value != [] {
        UpdateTable(cachedData.value, source);
        loadRestVisible := false;
      }
    }

    /** The worker's result arrives: a list is merged into the cache and its
        first page (of the payload, not of the merged cache) is shown; None
        changes nothing. */
    method HandleDataFetched(payload: Option<seq<EventRecord>>, source: FlagSource)
      requires Valid()
      modifies this, flagHandler, cacheHandler
      ensures Valid() && loadRestVisible == old(loadRestVisible) && requests == old(requests)
      ensures payload.None? ==>
                table == old(table) && flagHandler.flagCache == old(flagHandler.flagCache) &&
                cacheHandler.data == old(cacheHandler.data) && cacheHandler.file == old(cacheHandler.file)
      ensures payload.Some? ==>
                cacheHandler.data == Merge(old(cacheHandler.data), payload.value) &&
                cacheHandler.file == Decoded(cacheHandler.data) &&
                Rendered(flagHandler.flagCache, table) ==
                  Render(old(flagHandler.flagCache), FirstPage(payload.value), flagHandler.currencyFlags, source)
    {
      if payload.Some? {
        cacheHandler.AddToCache(payload.value);
        UpdateTable(FirstPage(payload.value), source);
      }
    }
  }

  /** Redrawing never loses a cached flag: the old entries stay a prefix of
      the flag cache with their images. */
  lemma {:induction false} RenderKeepsFlags(m: OrderedMap, data: seq<EventRecord>, urls: map<string, string>, source: FlagSource)
    requires WellFormed(m)
    ensures var out := Render(m, data, urls, source).cache;
            |m.keys| <= |out.keys| && out.keys[..|m.keys|] == m.keys &&
            forall k :: k in m.values ==> k in out.values && out.values[k] == m.values[k]
    decreases |data|
  {
    if data != [] {
      var prefix := data[..|data| - 1];
      var last := data[|data| - 1];
      RenderKeepsFlags(m, prefix, urls, source);
      var before := Render(m, prefix, urls, source).cache;
      var out := Render(m, data, urls, source).cache;
      assert out == RenderRow(before, last, urls, source).cache;
      RenderRowKeepsFlags(before, last, urls, source);
      assert out.keys[..|m.keys|] == out.keys[..|before.keys|][..|m.keys|];
    }
  }

  /** One row of the redraw never loses a cached flag. */
  lemma RenderRowKeepsFlags(m: OrderedMap, r: EventRecord, urls: map<string, string>, source: FlagSource)
    requires WellFormed(m)
    ensures var out := RenderRow(m, r, urls, source).cache;
            |m.keys| <= |out.keys| && out.keys[..|m.keys|] == m.keys &&
            forall k :: k in m.values ==> k in out.values && out.values[k] == m.values[k]
  {
    if Present(r.currency) {
      FetchNeverEvicts(m, r.currency.value, urls, source);
    }
  }

  /** The table shows one row per record, in order, with the record's texts,
      and a flag only beside a non-empty currency code. */
  lemma {:induction false} RenderRows(m: OrderedMap, data: seq<EventRecord>, urls: map<string, string>, source: FlagSource)
    requires WellFormed(m)
    ensures var rows := Render(m, data, urls, source).rows;
            |rows| == |data| &&
            (forall i :: 0 <= i < |data| ==> rows[i].cells == CellTexts(data[i])) &&
            (forall i :: 0 <= i < |data| && rows[i].flag.Some? ==> Present(data[i].currency))
    decreases |data|
  {
    if data != [] {
      var prefix := data[..|data| - 1];
      RenderRows(m, prefix, urls, source);
      var before := Render(m, prefix, urls, source);
      var row := RenderRow(before.cache, data[|data| - 1], urls, source);
      var rows := Render(m, data, urls, source).rows;
      assert rows == before.rows + row.rows;
      forall i | 0 <= i < |data|
        ensures rows[i].cells == CellTexts(data[i])
        ensures rows[i].flag.Some? ==> Present(data[i].currency)
      {
        if i < |prefix| {
          assert rows[i] == before.rows[i] && data[i] == prefix[i];
        } else {
          assert rows[i] == row.rows[0];
        }
      }
    }
  }

  /** One row per record. */
  lemma {:induction false} RenderLength(m: OrderedMap, data: seq<EventRecord>, urls: map<string, string>, source: FlagSource)
    requires WellFormed(m)
    ensures |Render(m, data, urls, source).rows| == |data|
    decreases |data|
  {
    if data != [] {
      RenderLength(m, data[..|data| - 1], urls, source);
    }
  }

  /** A currency code that was cached before the redraw shows its cached
      flag, with no resolution. */
  lemma {:induction false} RenderShowsCachedFlags(m: OrderedMap, data: seq<EventRecord>, urls: map<string, string>, source: FlagSource)
    requires WellFormed(m)
    ensures var rows := Render(m, data, urls, source).rows;
            |rows| == |data| &&
            forall i :: 0 <= i < |data| && Present(data[i].currency) && data[i].currency.value in m.values ==>
                          rows[i].flag == Some(m.values[data[i].currency.value])
    decreases |data|
  {
    RenderLength(m, data, urls, source);
    if data != [] {
      var prefix := data[..|data| - 1];
      var last := data[|data| - 1];
      RenderShowsCachedFlags(m, prefix, urls, source);
      forall i | 0 <= i < |data| && Present(data[i].currency) && data[i].currency.value in m.values
        ensures Render(m, data, urls, source).rows[i].flag == Some(m.values[data[i].currency.value])
      {
        if i < |prefix| {
          RenderEarlierRow(m, data, urls, source, i);
          assert data[i] == prefix[i];
        } else {
          LastRowCachedFlag(m, data, urls, source);
        }
      }
    }
  }

  /** The last row's share of RenderShowsCachedFlags. */
  lemma LastRowCachedFlag(m: OrderedMap, data: seq<EventRecord>, urls: map<string, string>, source: FlagSource)
    requires WellFormed(m) && data != []
    requires Present(data[|data| - 1].currency) && data[|data| - 1].currency.value in m.values
    ensures |Render(m, data, urls, source).rows| == |data|
    ensures Render(m, data, urls, source).rows[|data| - 1].flag == Some(m.values[data[|data| - 1].currency.value])
  {
    var prefix := data[..|data| - 1];
    var last := data[|data| - 1];
    RenderLength(m, data, urls, source);
    RenderLength(m, prefix, urls, source);
    RenderKeepsFlags(m, prefix, urls, source);
    var before := Render(m, prefix, urls, source);
    RenderRowCachedFlag(before.cache, last, urls, source);
    assert Render(m, data, urls, source).rows == before.rows + RenderRow(before.cache, last, urls, source).rows;
  }

  /** One row: the record's texts always; no flag and no lookup without a
      currency code; a code already cached shows its cached flag and leaves
      the cache as it was. */
  lemma RenderRowCachedFlag(m: OrderedMap, r: EventRecord, urls: map<string, string>, source: FlagSource)
    requires WellFormed(m)
    ensures |RenderRow(m, r, urls, source).rows| == 1
    ensures RenderRow(m, r, urls, source).rows[0].cells == CellTexts(r)
    ensures !Present(r.currency) ==>
              RenderRow(m, r, urls, source) == Rendered(m, [Row(CellTexts(r), None)])
    ensures Present(r.currency) && r.currency.value in m.values ==>
              RenderRow(m, r, urls, source) == Rendered(m, [Row(CellTexts(r), Some(m.values[r.currency.value]))])
    ensures Present(r.currency) && r.currency.value !in m.values ==>
              RenderRow(m, r, urls, source) ==
                Rendered(FetchStep(m, r.currency.value, urls, source).cache,
                         [Row(CellTexts(r), Resolve(r.currency.value, urls, source))])
  {
  }

  /** Every row shows what the flag lookup returned for its currency code,
      looked up in the cache as the earlier rows left it; a row without a
      currency code shows no flag. */
  lemma {:induction false} RenderFlags(m: OrderedMap, data: seq<EventRecord>, urls: map<string, string>, source: FlagSource)
    requires WellFormed(m)
    ensures |Render(m, data, urls, source).rows| == |data|
    ensures forall i :: 0 <= i < |data| ==>
              Render(m, data, urls, source).rows[i].flag ==
                if Present(data[i].currency)
                then FetchStep(Render(m, data[..i], urls, source).cache, data[i].currency.value, urls, source).image
                else None
    decreases |data|
  {
    RenderLength(m, data, urls, source);
    if data != [] {
      var prefix := data[..|data| - 1];
      RenderFlags(m, prefix, urls, source);
      forall i | 0 <= i < |data|
        ensures Render(m, data, urls, source).rows[i].flag ==
                  if Present(data[i].currency)
                  then FetchStep(Render(m, data[..i], urls, source).cache, data[i].currency.value, urls, source).image
                  else None
      {
        if i < |prefix| {
          RenderEarlierRow(m, data, urls, source, i);
          assert data[i] == prefix[i] && data[..i] == prefix[..i];
        } else {
          LastRowFlag(m, data, urls, source);
        }
      }
    }
  }

  /** Adding a record leaves the rows of the earlier records as they were. */
  lemma RenderEarlierRow(m: OrderedMap, data: seq<EventRecord>, urls: map<string, string>, source: FlagSource, i: nat)
    requires WellFormed(m) && i < |data| - 1
    ensures |Render(m, data[..|data| - 1], urls, source).rows| == |data| - 1
    ensures |Render(m, data, urls, source).rows| == |data|
    ensures Render(m, data, urls, source).rows[i] == Render(m, data[..|data| - 1], urls, source).rows[i]
  {
    RenderLength(m, data, urls, source);
    RenderLength(m, data[..|data| - 1], urls, source);
  }

  /** The last row's share of RenderFlags. */
  lemma LastRowFlag(m: OrderedMap, data: seq<EventRecord>, urls: map<string, string>, source: FlagSource)
    requires WellFormed(m) && data != []
    ensures |Render(m, data, urls, source).rows| == |data|
    ensures var last := data[|data| - 1];
            var before := Render(m, data[..|data| - 1], urls, source);
            Render(m, data, urls, source).rows[|data| - 1].flag ==
              if Present(last.currency) then FetchStep(before.cache, last.currency.value, urls, source).image else None
  {
    var prefix := data[..|data| - 1];
    var last := data[|data| - 1];
    RenderLength(m, data, urls, source);
    RenderLength(m, prefix, urls, source);
    var before := Render(m, prefix, urls, source);
    RenderRowCachedFlag(before.cache, last, urls, source);
    assert Render(m, data, urls, source).rows == before.rows + RenderRow(before.cache, last, urls, source).rows;
  }

  /** Column by column: the date as stored; each text field, or 'N/A' when
      it is null or empty; each figure's str(), or 'N/A' when it is null,
      empty or zero. */
  lemma CellTextsShape(r: EventRecord)
    ensures |CellTexts(r)| == 9 && CellTexts(r)[0] == r.date
    ensures forall k :: 1 <= k < 9 ==> CellTexts(r)[k] != ""
    ensures CellTexts(r)[1] == (if Present(r.time) then r.time.value else NotAvailable)
    ensures CellTexts(r)[2] == (if Present(r.zone) then r.zone.value else NotAvailable)
    ensures CellTexts(r)[3] == (if Present(r.currency) then r.currency.value else NotAvailable)
    ensures CellTexts(r)[4] == (if Present(r.importance) then r.importance.value else NotAvailable)
    ensures CellTexts(r)[5] == (if Present(r.event) then r.event.value else NotAvailable)
    ensures CellTexts(r)[6] == (if Truthy(r.actual) then ValueText(r.actual) else NotAvailable)
    ensures CellTexts(r)[7] == (if Truthy(r.forecast) then ValueText(r.forecast) else NotAvailable)
    ensures CellTexts(r)[8] == (if Truthy(r.previous) then ValueText(r.previous) else NotAvailable)
    ensures r.actual in {Null, Text(""), Integer(0)} ==> CellTexts(r)[6] == NotAvailable
    ensures r.forecast in {Null, Text(""), Integer(0)} ==> CellTexts(r)[7] == NotAvailable
    ensures r.previous in {Null, Text(""), Integer(0)} ==> CellTexts(r)[8] == NotAvailable
  {
  }

  /** Which cached records the window selects: yesterday's only when now is
      exactly midnight, then everything up to and including today + 7. */
  lemma WindowSelects(now: Instant, d: Date)
    requires ValidInstant(now) && Window(now).Some? && InCalendar(d)
    ensures var w := Window(now).value;
            Within(d, w.start, w.end) <==>
              (Before(PrevDay(now.date), d) || (d == PrevDay(now.date) && now.micros == 0)) &&
              AtOrBefore(d, AddDays(now.date, 7))
  {
  }

  /** Today and each of the seven following days fall inside the window, and
      the day after them does not. */
  lemma WindowCoversNextWeek(now: Instant, k: nat)
    requires ValidInstant(now) && Window(now).Some? && k <= 7
    ensures var w := Window(now).value;
            Within(AddDays(now.date, k), w.start, w.end) &&
            !Within(NextDay(AddDays(now.date, 7)), w.start, w.end)
  {
    AddDaysMonotone(now.date, k, 7);
    if k > 0 {
      assert Before(now.date, AddDays(now.date, k));
    }
  }

  /** The fetch request carries the window's dates, and they read back as
      those dates. */
  lemma RequestRoundTrip(now: Instant)
    requires ValidInstant(now) && Window(now).Some?
    ensures var w := Window(now).value;
            ParseDate(RequestFor(w).fromDate) == Some(PrevDay(now.date)) &&
            ParseDate(RequestFor(w).toDate) == Some(AddDays(now.date, 7))
  {
    var w := Window(now).value;
    ParseFormatRoundTrip(w.start.date);
    ParseFormatRoundTrip(w.end.date);
  }

  /** A payload from the worker is never empty, so a delivered result always
      redraws the table with at least one row. */
  lemma DeliveredPayloadShowsRows(result: ProviderResult, m: OrderedMap, urls: map<string, string>, source: FlagSource)
    requires WellFormed(m) && WorkerPayload(result).Some?
    ensures |Render(m, FirstPage(WorkerPayload(result).value), urls, source).rows| >= 1
  {
    RenderRows(m, FirstPage(WorkerPayload(result).value), urls, source);
  }

  /** Away from the ends of the calendar the window always exists. */
  lemma WindowExists(now: Instant)
    requires ValidInstant(now) && 2 <= now.date.year <= MaxYear - 7
    ensures Window(now) == Some(DateWindow(Instant(PrevDay(now.date), now.micros),
                                           Instant(AddDays(now.date, 7), now.micros)))
  {
    AddDaysYears(now.date, 7);
  }

  /** Activation on 20/09/2024 at noon queries from 19/09/2024 to
      27/09/2024 at noon and asks the provider for those two dates. */
  lemma WindowExample()
    ensures var now := Instant(Date(2024, 9, 20), 12 * 3_600_000_000);
            Window(now) == Some(DateWindow(Instant(Date(2024, 9, 19), now.micros), Instant(Date(2024, 9, 27), now.micros))) &&
            RequestFor(Window(now).value) == FetchRequest("19/09/2024", "27/09/2024")
  {
    var d := Date(2024, 9, 20);
    assert AddDays(d, 2) == Date(2024, 9, 22);
    assert AddDays(d, 4) == Date(2024, 9, 24);
    assert AddDays(d, 7) == Date(2024, 9, 27);
    assert FormatDate(Date(2024, 9, 19)) == "19/09/2024";
    assert FormatDate(Date(2024, 9, 27)) == "27/09/2024";
  }

  /** Two records dated 20/09/2024 and 25/09/2024 merged into an empty cache
      are both kept, and the window of that noon returns both in order. */
  lemma MergeQueryExample(r1: EventRecord, r2: EventRecord)
    requires r1.id != r2.id && r1.date == "20/09/2024" && r2.date == "25/09/2024"
    ensures Merge([], [r1, r2]) == [r1, r2]
    ensures RangeQuery([r1, r2], Instant(Date(2024, 9, 19), 12 * 3_600_000_000),
                       Instant(Date(2024, 9, 27), 12 * 3_600_000_000)) == Some([r1, r2])
  {
    MergeExample(r1, r2);
    QueryExample(r1, r2);
  }

  /** The merge half of MergeQueryExample. */
  lemma MergeExample(r1: EventRecord, r2: EventRecord)
    requires r1.id != r2.id
    ensures Merge([], [r1, r2]) == [r1, r2]
  {
    var batch := [r1, r2];
    assert Ids([]) == {};
    assert batch[..1] == [r1] && [r1][..0] == [];
    assert Fresh([r1], {}) == [r1];
  }

  /** The query half of MergeQueryExample. */
  lemma QueryExample(r1: EventRecord, r2: EventRecord)
    requires r1.date == "20/09/2024" && r2.date == "25/09/2024"
    ensures RangeQuery([r1, r2], Instant(Date(2024, 9, 19), 12 * 3_600_000_000),
                       Instant(Date(2024, 9, 27), 12 * 3_600_000_000)) == Some([r1, r2])
  {
    ParseFormatRoundTrip(Date(2024, 9, 20));
    ParseFormatRoundTrip(Date(2024, 9, 25));
    assert FormatDate(Date(2024, 9, 20)) == "20/09/2024";
    assert FormatDate(Date(2024, 9, 25)) == "25/09/2024";
    var start, end := Instant(Date(2024, 9, 19), 12 * 3_600_000_000), Instant(Date(2024, 9, 27), 12 * 3_600_000_000);
    assert ParseDate(r1.date) == Some(Date(2024, 9, 20)) && Within(Date(2024, 9, 20), start, end);
    assert ParseDate(r2.date) == Some(Date(2024, 9, 25)) && Within(Date(2024, 9, 25), start, end);
    assert [r1][..0] == [] && [r1][0] == r1;
    assert RangeQuery([r1][..0], start, end) == Some([]);
    assert [] + [r1] == [r1];
    assert RangeQuery([r1], start, end) == Some([r1]);
    var both := [r1, r2];
    assert both[..1] == [r1] && both[1] == r2;
    assert RangeQuery(both, start, end) == Some([r1] + [r2]);
    assert [r1] + [r2] == both;
  }
}
