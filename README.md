# BullionBell calendar core in Dafny

BullionBell is a desktop application that shows an economic calendar and
plays alert sounds. This project models its data core:

- **the event cache** (`CacheHandling`): an ordered list of calendar records
  kept in a JSON file. It supports an inclusive date-range query that parses
  each stored 'DD/MM/YYYY' date, a merge that appends only records whose id
  was not stored before, and a clear operation. It is a class over the
  record list and the file content.
- **the flag cache** (`CountryFlags`): an insertion-ordered dictionary from
  currency code to flag image. A miss is resolved from a bundled file for
  EUR and over HTTP for every other code. A second, bounded insert evicts the
  oldest entry. It is a class over an ordered map value.
- **the calendar screen's data flow** (`CalendarScreen`), without drawing:
  - the window from one day before now to seven days after;
  - the first 50 cached rows shown on activation;
  - the request handed to the background worker;
  - the merge and redraw when the worker's payload arrives;
  - the "Load Rest" button;
  - the nine cell texts of each row, and the flag lookup per row.
- **the alert system** (`Alerts`): a list of alerts with a one-way
  `triggered` flag, and one pass of its checking loop.

Two support modules model the Python built-ins these use:

- `Values`: Python truthiness, `str()` of an integer, ASCII `upper()`.
- `Dates`: proleptic Gregorian dates in years 1 to 9999, `timedelta` days,
  `strftime('%d/%m/%Y')`, and `strptime(s, '%d/%m/%Y')` with its
  field grammar and date check.

The outside world is passed in as parameters:

- the current time;
- the decoded cache file (`StoredFile`);
- the existence and decoding of the bundled EU flag, and the response to
  each URL (`FlagSource`);
- the provider's result (`ProviderResult`).

Behaviour of the code worth noting, which the model keeps:

- The comment at utils/country_flag_handler.py:14 calls the flag cache an
  LRU cache with a size limit. In the code, a lookup neither reorders nor
  evicts. The bounded insert `_add_to_cache` is never called. Cache keys are
  stored exactly as spelled, not upper-cased. `FetchExceedsCacheSize` and
  `FetchMissCaching` state this behaviour.
- The event cache has no size bound.
- A stored date that does not parse makes the whole query raise
  (`RangeQueryFailure`).
- The duplicate check looks only at ids stored before the call. Two new
  records with the same id in one batch are both appended
  (`MergeKeepsDuplicatesWithinBatch`).

## Model

| member | source | states |
|---|---|---|
| Values.IntToString | ui/economic_calendar_screen.py:201-203 | str() of an integer figure is a decimal that reads back as that integer, with a leading '-' exactly for negatives and no leading zero unless it is 0 |
| Values.ValueText | ui/economic_calendar_screen.py:201-203 | str() of a figure: the text itself, 'None', or the integer's decimal (stated by IntToString and TruthyValueTextNonEmpty) |
| Values.TruthyValueTextNonEmpty | ui/economic_calendar_screen.py:201-203 | a truthy figure never renders as an empty cell |
| Values.Upper | utils/country_flag_handler.py:28 | upper() keeps the length and upper-cases each character |
| Dates.DaysInMonth | utils/cache_handler.py:31 | a month has 28 to 31 days, 29 exactly for February of a leap year |
| Dates.NextDay | ui/economic_calendar_screen.py:151 | adding one day gives an existing, strictly later date |
| Dates.PrevDay | ui/economic_calendar_screen.py:150 | subtracting one day gives an existing, strictly earlier date that adding a day undoes |
| Dates.AddDays | ui/economic_calendar_screen.py:151 | adding n > 0 days gives an existing, strictly later date |
| Dates.NextDayIsSuccessor | ui/economic_calendar_screen.py:151 | no date lies strictly between a date and the next day |
| Dates.AddDaysMonotone | ui/economic_calendar_screen.py:151 | adding more days never gives an earlier date |
| Dates.FormatDate | ui/economic_calendar_screen.py:160-161 | '%d/%m/%Y' output is ten characters: two digits, '/', two digits, '/', four digits |
| Dates.DayField | utils/cache_handler.py:31 | the %d field accepts only days 1 to 31 |
| Dates.MonthField | utils/cache_handler.py:31 | the %m field accepts only months 1 to 12 |
| Dates.ParseDate | utils/cache_handler.py:31 | strptime succeeds only with an existing date in years 1 to 9999 |
| Dates.ParseFormatRoundTrip | ui/economic_calendar_screen.py:160-161 | every formatted date parses back to the same date |
| CacheHandling.LoadCache | utils/cache_handler.py:12-20 | a missing file or a JSONDecodeError gives an empty store; otherwise the file's "data" list |
| CacheHandling.Within | utils/cache_handler.py:32 | the query's test: start <= the date's midnight <= end (stated by WindowSelects and RangeQueryMembers) |
| CacheHandling.RangeQuery | utils/cache_handler.py:29-34 | the query as a function of the stored list; its meaning is stated by RangeQueryFailure, RangeQueryCounts, RangeQueryMembers and RangeQueryOrder |
| CacheHandling.Ids | utils/cache_handler.py:38 | existing_ids: holds the id of every stored record and nothing else |
| CacheHandling.Fresh | utils/cache_handler.py:40-42 | the batch records with an unknown id, in batch order; stated by FreshMembers, FreshCounts, FreshOrder and FreshDistinct |
| CacheHandling.Merge | utils/cache_handler.py:36-42 | the store followed by the fresh batch records; stated by the Merge lemmas below |
| CacheHandling.CacheHandler.constructor | utils/cache_handler.py:7-10 | a new handler holds the loaded records and the file as found |
| CacheHandling.CacheHandler.SaveCache | utils/cache_handler.py:22-25 | the file then holds the store, which is unchanged |
| CacheHandling.CacheHandler.GetCachedData | utils/cache_handler.py:27-34 | the loop returns the range query of the store: the records dated within [start, end] in order, or failure on an unparsable date |
| CacheHandling.CacheHandler.AddToCache | utils/cache_handler.py:36-43 | the store becomes its merge with the batch and is saved |
| CacheHandling.CacheHandler.ClearCache | utils/cache_handler.py:45-48 | the store and the file become empty, so every query returns nothing |
| CacheHandling.RangeQueryFailure | utils/cache_handler.py:30-31 | the query fails exactly when some stored date does not parse |
| CacheHandling.RangeQueryCounts | utils/cache_handler.py:29-34 | a successful query holds each in-range record as many times as the store, and no other record |
| CacheHandling.RangeQueryMembers | utils/cache_handler.py:32-33 | a record is in the result iff it is stored and its date lies within [start, end] |
| CacheHandling.RangeQueryOrder | utils/cache_handler.py:30-33 | the result is a subsequence of the store: stored order is kept |
| CacheHandling.FreshMembers | utils/cache_handler.py:40-42 | the appended records are exactly the batch records with an unknown id |
| CacheHandling.FreshCounts | utils/cache_handler.py:40-42 | the filter keeps each batch record with an unknown id exactly as often as the batch holds it, and nothing else |
| CacheHandling.FreshOrder | utils/cache_handler.py:40-42 | the filtered records keep batch order |
| CacheHandling.FreshPrefix | utils/cache_handler.py:40-42 | filtering a prefix of the batch gives a prefix of the filtered batch: records are appended as the loop meets them |
| CacheHandling.FreshDistinct | utils/cache_handler.py:40-42 | filtering a batch with distinct ids keeps them distinct |
| CacheHandling.MergeAppendsOnlyNewIds | utils/cache_handler.py:36-42 | the store stays an unchanged prefix, and what follows it is exactly the batch records with an id not stored before, in batch order and with their multiplicity |
| CacheHandling.MergeKeepsIdsDistinct | utils/cache_handler.py:36-42 | a store and a batch with distinct ids merge into a list with distinct ids |
| CacheHandling.MergeKeepsDuplicatesWithinBatch | utils/cache_handler.py:38-42 | for any store and batch, two batch records sharing an id the store lacks are both appended in batch order, so the merge repeats that id |
| CacheHandling.MergeIdempotent | utils/cache_handler.py:36-42 | merging the same batch twice equals merging it once |
| CacheHandling.FreshNoneNew | utils/cache_handler.py:40-42 | a batch whose ids are all known appends nothing |
| CountryFlags.Put | utils/country_flag_handler.py:51 | storing a key sets its image; a new key goes last and an existing one keeps its place |
| CountryFlags.PopOldest | utils/country_flag_handler.py:70 | popitem(last=False) removes exactly the first key, and raises on an empty dictionary |
| CountryFlags.Resolve | utils/country_flag_handler.py:27-60 | a resolved image comes from the bundled file for EUR, otherwise from a non-empty URL listed under the upper-case code whose response is 200 |
| CountryFlags.FetchStep | utils/country_flag_handler.py:24-60 | one lookup as a function of the cache; stated by FetchHitResolvesNothing, FetchMissCaching, SecondFetchFromCache and FetchNeverEvicts |
| CountryFlags.AddBounded | utils/country_flag_handler.py:64-72 | the bounded insert raises exactly when the cache is empty and not below the limit; below the limit it sets the code and leaves the other entries and the insertion order alone, appending a new code; at or over the limit it first drops the oldest entry, then sets the code (appended unless it is already among the survivors) |
| CountryFlags.CountryFlagHandler.constructor | utils/country_flag_handler.py:9-16 | the handler starts with the URL table, the size limit and an empty cache |
| CountryFlags.CountryFlagHandler.FetchFlagImage | utils/country_flag_handler.py:18-62 | the branches return and cache what the lookup step gives: a hit, or a resolved miss cached under the code as given |
| CountryFlags.CountryFlagHandler.AddToCache | utils/country_flag_handler.py:64-72 | the bounded insert: evict the oldest entry when full, then store; an empty cache with size limit <= 0 raises |
| CountryFlags.FetchHitResolvesNothing | utils/country_flag_handler.py:24-25 | a hit returns the cached image whatever the table and the network say |
| CountryFlags.FetchMissCaching | utils/country_flag_handler.py:27-60 | a miss returns the resolution; a failure is not cached, a success is appended under the code as given |
| CountryFlags.SecondFetchFromCache | utils/country_flag_handler.py:24-34 | after a successful lookup the same code is served from the cache |
| CountryFlags.FetchNeverEvicts | utils/country_flag_handler.py:18-62 | a lookup keeps every old entry in place with its image and adds at most one |
| CountryFlags.EurIgnoresUrlTable | utils/country_flag_handler.py:28-40 | EUR in any case resolves from the bundled file only |
| CountryFlags.OtherCodesNeedUrl | utils/country_flag_handler.py:43-60 | any other code resolves iff its upper-case form has a non-empty URL whose response is 200 and decodes |
| CountryFlags.AddBoundedKeepsBound | utils/country_flag_handler.py:64-72 | with a positive limit, the bounded insert keeps the size within the limit and stores the image |
| CountryFlags.AddBoundedEvictsOldest | utils/country_flag_handler.py:68-72 | a full cache loses exactly its oldest entry and keeps the rest |
| CountryFlags.AddBoundedRaisesWhenSizeNotPositive | utils/country_flag_handler.py:68-70 | a size limit of zero or less makes an insert into an empty cache raise KeyError |
| CountryFlags.FetchExceedsCacheSize | utils/country_flag_handler.py:14-16 | the lookup path ignores the size limit: two lookups under limit 1 leave two entries |
| CalendarScreen.Window | ui/economic_calendar_screen.py:149-151 | the window exists exactly when yesterday and the day a week ahead are representable, and is then now minus one day to now plus seven days at the same time of day |
| CalendarScreen.WindowExists | ui/economic_calendar_screen.py:149-151 | for any year from 2 to 9992 the window exists |
| Dates.AddDaysYears | ui/economic_calendar_screen.py:151 | adding n days moves the year forward by between 0 and n |
| CalendarScreen.RequestFor | ui/economic_calendar_screen.py:159-161 | both request texts are ten characters long and read back as the window's dates |
| CalendarScreen.FirstPage | ui/economic_calendar_screen.py:157 | data[:50] is the prefix of length min(50, len) |
| CalendarScreen.TextOrNotAvailable | ui/economic_calendar_screen.py:183-184 | `field or 'N/A'` is never blank and shows a non-empty text as it is |
| CalendarScreen.ValueOrNotAvailable | ui/economic_calendar_screen.py:201-203 | `str(field) if field else 'N/A'` is never blank, and a non-zero integer shows as a decimal reading back as it |
| CalendarScreen.CellTexts | ui/economic_calendar_screen.py:181-203 | nine cells, the first the stored date; per column stated by CellTextsShape |
| CalendarScreen.RenderRow | ui/economic_calendar_screen.py:182-203 | one row of update_table; stated by RenderRowCachedFlag for no code, a cached code and an uncached code |
| CalendarScreen.Render | ui/economic_calendar_screen.py:181-203 | update_table's loop as a function, threading the flag cache; keeps it well-formed; stated by RenderRows, RenderKeepsFlags, RenderShowsCachedFlags and RenderFlags |
| CalendarScreen.WorkerPayload | db/DataWorker.py:16-31 | the worker posts the records exactly when the provider returns a non-empty frame, else None |
| CalendarScreen.EconomicCalendarScreen.constructor | ui/economic_calendar_screen.py:71-84 | a new screen holds the loaded cache, an empty flag cache with limit 100, an empty grid and the button shown |
| CalendarScreen.EconomicCalendarScreen.UpdateTable | ui/economic_calendar_screen.py:168-208 | the grid and the flag cache become the rendering of the data, one row per record |
| CalendarScreen.EconomicCalendarScreen.StartDataFetch | ui/economic_calendar_screen.py:144-166 | shows the first page of a non-empty cached window and requests the window's dates; a failed query or an overflow changes nothing |
| CalendarScreen.EconomicCalendarScreen.LoadRestData | ui/economic_calendar_screen.py:210-220 | a non-empty cached window is shown in full and the button hidden; otherwise nothing changes |
| CalendarScreen.EconomicCalendarScreen.HandleDataFetched | ui/economic_calendar_screen.py:222-226 | a payload is merged into the cache and its own first page is shown; None changes nothing |
| CalendarScreen.RenderKeepsFlags | ui/economic_calendar_screen.py:186-195 | redrawing keeps every cached flag in place |
| CalendarScreen.RenderRowKeepsFlags | ui/economic_calendar_screen.py:186-195 | drawing one row keeps every cached flag in place |
| CalendarScreen.RenderEarlierRow | ui/economic_calendar_screen.py:181-203 | drawing a further record leaves the earlier rows unchanged |
| CalendarScreen.RenderRows | ui/economic_calendar_screen.py:181-203 | one row per record in order with the record's texts; a flag only beside a non-empty currency |
| CalendarScreen.RenderShowsCachedFlags | ui/economic_calendar_screen.py:187-193 | a currency cached before the redraw shows its cached flag |
| CalendarScreen.RenderLength | ui/economic_calendar_screen.py:177-181 | the table gets one row per record |
| CalendarScreen.LastRowCachedFlag | ui/economic_calendar_screen.py:187-193 | the last record's cached currency shows its cached flag |
| CalendarScreen.RenderRowCachedFlag | ui/economic_calendar_screen.py:182-197 | one row holds the record's texts; without a currency code there is no flag and no lookup; a cached code shows its cached flag and leaves the cache as it was; an uncached code shows what the lookup resolved and leaves the cache as the fetch step leaves it |
| CalendarScreen.RenderFlags | ui/economic_calendar_screen.py:182-197 | each row's flag is the fetch result for its code against the cache as the earlier rows left it, or none without a code |
| CalendarScreen.LastRowFlag | ui/economic_calendar_screen.py:182-197 | the last row's flag is the fetch result for its code against the cache the earlier rows left |
| CalendarScreen.CellTextsShape | ui/economic_calendar_screen.py:182-203 | nine cells: the date; each text field, or 'N/A' when null or empty; each figure's str(), or 'N/A' when null, empty or zero; no cell after the date is blank |
| CalendarScreen.WindowSelects | ui/economic_calendar_screen.py:150-154 | a date is selected iff it falls after yesterday (or on it at exactly midnight) and on or before today + 7 |
| CalendarScreen.WindowCoversNextWeek | ui/economic_calendar_screen.py:150-151 | today and the next seven days are selected, the eighth day is not |
| CalendarScreen.RequestRoundTrip | ui/economic_calendar_screen.py:159-161 | the request's date texts parse back to the window's dates |
| CalendarScreen.DeliveredPayloadShowsRows | db/DataWorker.py:22-25 | a delivered payload always redraws at least one row |
| CalendarScreen.WindowExample | ui/economic_calendar_screen.py:148-161 | at noon on 20/09/2024 the window is 19/09/2024 to 27/09/2024 noon and the request carries those dates |
| CalendarScreen.MergeQueryExample | utils/cache_handler.py:27-42 | two new records merged into an empty cache are both returned by that window, in order |
| CalendarScreen.MergeExample | utils/cache_handler.py:36-42 | two records with different new ids merged into an empty cache are both kept, in order |
| CalendarScreen.QueryExample | utils/cache_handler.py:27-33 | records dated 20/09/2024 and 25/09/2024 are both returned by the window of 19/09/2024 noon to 27/09/2024 noon |
| Alerts.AlertSystem.constructor | utils/alert_system.py:7-10 | a new system has no alerts |
| Alerts.AlertSystem.AddAlert | utils/alert_system.py:12-19 | appends one untriggered alert |
| Alerts.AlertSystem.TriggerAlert | utils/alert_system.py:43-46 | marks the alert triggered and plays its sound |
| Alerts.AlertSystem.CheckAlerts | utils/alert_system.py:35-41 | one pass gives the pass of the list, and plays the sounds of the fired alerts in list order |
| Alerts.AlertSystem.ClearAlerts | utils/alert_system.py:56-58 | removes every alert |
| Alerts.Due | utils/alert_system.py:39 | the loop's condition: the time has come and the alert has not fired |
| Alerts.Pass | utils/alert_system.py:37-40 | the alerts after one pass; stated by PassEffect, PassIdempotent and TriggeredStays |
| Alerts.Fired | utils/alert_system.py:37-40 | the positions a pass fires, all within the list; stated by FiredExactlyDue |
| Alerts.PassEffect | utils/alert_system.py:37-40 | a pass keeps times, sounds and order, and triggers exactly the alerts whose time has come |
| Alerts.FiredExactlyDue | utils/alert_system.py:37-40 | a pass fires exactly the due, untriggered alerts, each once, in list order |
| Alerts.PassIdempotent | utils/alert_system.py:39 | a second pass at the same time changes and fires nothing |
| Alerts.TriggeredStays | utils/alert_system.py:45 | triggered never goes back to false |
| Alerts.AtMostOnce | utils/alert_system.py:35-41 | over any sequence of passes each alert fires at most once, and only if it was untriggered |

## Left out

- Reading and writing the JSON files (the cache file, db/currency_to_emoji.json) are modelled by their decoded content. A JSON document that is not an object, or whose "data" is not a list of records, is not modelled.
- CacheHandling.LoadCache: only a missing file and a JSONDecodeError are modelled. Other failures raise out of load_cache in the source and are not modelled: a file whose bytes are not valid text (UnicodeDecodeError), or a file that cannot be opened.
- CacheHandling.CacheHandler.SaveCache: writes only the "data" list. json.dump writes the whole loaded object, including any other top-level keys; such keys are not modelled. A decoded object without a "data" key, which the source reads as an empty list and then creates, is not modelled either.
- Every record key is assumed present. Only `currency` is read with `.get` (ui/economic_calendar_screen.py:187). A record missing `time`, `zone`, `importance`, `event`, `actual`, `forecast` or `previous` raises KeyError in update_table after the grid was cleared. A record missing `date` or `id` raises KeyError in get_cached_data or add_to_cache. These KeyError paths are not modelled.
- Floating-point figures and text fields that hold something other than a string or None are not modelled. Figures are None, text or integers.
- Dates.ParseDate: accepts only ASCII digits, where strptime's `\d` also accepts other Unicode decimal digits.
- Values.Upper: maps only ASCII letters, where str.upper() maps all of Unicode.
- Dates.FormatDate: always pads the year to four digits. Some C libraries do not pad years below 1000; such years do not arise from a current clock.
- Times of day are whole microseconds since midnight. Time zones, and comparing naive with aware datetimes, are not modelled.
- The background worker thread, wx.CallAfter and event posting are modelled only as a request log (`requests`) and a payload handed to `HandleDataFetched`. Concurrency is not modelled.
- The provider call (investpy) is an input (`ProviderResult`).
- Within one `UpdateTable`, the bundled flag file and the HTTP responses are one fixed `FlagSource`.
- Decoding and scaling images, the grid's drawing, the cell renderer, column sizes, window resizing and Layout() are not modelled. The currency cell is modelled as the code's text plus the flag drawn beside it.
- The logger and print calls are not modelled.
- The alert system's thread, start/stop, the 60-second sleep and datetime.now() are not modelled. `CheckAlerts` is one pass of the loop with the time as a parameter.
- Alerts.AlertSystem.TriggerAlert: playsound is recorded in a ghost log `played` of sound files. A failing playback is swallowed by the source and changes nothing else.
- CalendarScreen.Window: an OverflowError of the date arithmetic near years 1 and 9999 is modelled as the screen doing nothing, since the exception would escape before any change.
- load_currency_to_emoji_mapping, on_back_to_home and the column-visibility table of the screen are unused by the data flow and not modelled.
