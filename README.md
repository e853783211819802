# catch-a-ride: a Dafny model of the feed post-processing

catch-a-ride answers "when is the next train?" for the New York subway. It
fetches a GTFS-realtime feed per line group, decodes it into nested
dictionaries, and post-processes it. This project models that
post-processing over an already decoded feed message:

- the line registry (`src/mta_subway_fetcher.py`): the line to feed-suffix
  table, the shuttle route-id overrides, the list of known lines, and the URL
  lookup that `get_realtime_data` does before fetching. An unknown line gives
  `None`.
- the stop topology (`src/mta_stops_to_stations.py`):
  - `get_stops_for_lines` builds a per-line list of the stop ids seen in the
    feed;
  - `remove_directionality_and_dedupe` strips the N/S suffix;
  - `split_directionality_and_dedupe` splits each line into a `<line>N` and a
    `<line>S` list.
- the line filter and arrival scan (`local_wip.py`): `extract_subway_line`
  and `find_next_arrival_times`.
- the stops-table fold (`setup/create_data.py`): the row loop of
  `load_stops_maps`, which builds a name→ids multimap and an id→name map.

Modules follow the source files. `Feed` holds the decoded message:
- a header;
- entities, each with an optional vehicle position and an optional trip
  update;
- stop-time updates, each with an optional arrival time.

`Wrappers` (Option and Result) and `Lists` (no-duplicates, subsequence) are
shared helpers.

Each loop of the source is a method. Each method is proved equal to a
specification function (`StopsOfLine`, `LineEntities`, `Scan`, `NameToIds`,
`IdToName`), or its contract states the result directly. The lemmas state
what the source promises about those functions.

Behaviour of the program that the model keeps as it is:
- The arrival scan never compares arrival times with the current time.
- The arrival scan never checks the limit against a range.
- The arrival scan checks the limit only before each entity, so a caller
  asking for 2 times can get 3 (`LimitExceededExample`).
- Resolving a route id never fails: an unknown line is its own route id.
  Only the URL lookup rejects an unknown line.

## Model

| member | source | states |
|---|---|---|
| SubwayFetcher.RealtimeUrl | src/mta_subway_fetcher.py:90-94 | A URL exists exactly for the lines in the line list. It begins with the base URL; any other line yields None. |
| SubwayFetcher.SubwayLineListIsKeys | src/mta_subway_fetcher.py:6-42 | The line list holds exactly the suffix table's keys, with no duplicates. |
| SubwayFetcher.NumberedLinesUseBaseUrl | src/mta_subway_fetcher.py:24-31 | Lines 1-7 and S have the empty suffix, so their URL is exactly the base URL. |
| SubwayFetcher.ShuttleLinesAreKnown | src/mta_subway_fetcher.py:6-40 | Every shuttle with a route-id override is a known line of the suffix table. |
| SubwayFetcher.RouteIdOverrides | src/mta_subway_fetcher.py:35-40 | Sr→H, Sf→FS, S→GS, SIR→SI; every other line's route id is the line itself. |
| StopsToStations.AppendNewProperties | src/mta_stops_to_stations.py:25-27 | Appending only unseen ids extends the list, keeps it duplicate-free, and adds exactly the given ids. |
| StopsToStations.AppendNewFirstSeenOrder | src/mta_stops_to_stations.py:25-27 | The list after the first j stop ids of a trip update is a prefix of the list after all of them: new ids are appended in first-seen order. |
| StopsToStations.CollectFromProperties | src/mta_stops_to_stations.py:21-27 | One entity only extends the list, keeps it duplicate-free, and adds only ids it names for the route. A matching vehicle's stop is added. So are all stops of a matching trip update whenever the `elif` runs: the vehicle does not match, or its stop is already in the list. |
| StopsToStations.CollectSplit | src/mta_stops_to_stations.py:21-27 | Scanning a prefix of the entities and then the rest equals scanning all of them. |
| StopsToStations.CollectProperties | src/mta_stops_to_stations.py:21-27 | Scanning entities only extends the list and keeps it duplicate-free. Every added id is named by one of the entities for the route. |
| StopsToStations.CollectComplete | src/mta_stops_to_stations.py:22-27 | Each matching vehicle's stop ends up in the final list. So does each stop of a matching trip update whose entity takes the `elif` on the list collected before it. |
| StopsToStations.StopsOfLineContents | src/mta_stops_to_stations.py:21-27 | A line's list has no duplicates. It holds only ids named by entities of its route, so other routes contribute nothing. It holds every matching vehicle's stop. It holds every stop of a matching trip update whose entity takes the `elif`: its vehicle does not match, or the vehicle's stop was collected from earlier entities. |
| StopsToStations.StopsOfLineFirstSeenOrder | src/mta_stops_to_stations.py:21-27 | The list built from the first k entities is a prefix of the final list (first-seen order). |
| StopsToStations.CollectLineStops | src/mta_stops_to_stations.py:21-27 | The nested loops over one line's entities compute StopsOfLine. |
| StopsToStations.GetStopsForLines | src/mta_stops_to_stations.py:13-28 | It fails exactly when a requested line is unknown (`None['entity']`) or its message has no entities (no `entity` key), naming such a line and the reason. Otherwise the keys are exactly the requested lines. Each line maps to StopsOfLine of its entities, filtered by the line's shuttle-resolved route id. |
| StopsToStations.Dedupe | src/mta_stops_to_stations.py:49 | `list(set(xs))`: no duplicates, and exactly the elements of xs. |
| StopsToStations.RemoveDirectionalityAndDedupe | src/mta_stops_to_stations.py:41-50 | The keys are the input's keys. Each list is duplicate-free and holds exactly the stations of the line's ids: an id loses its trailing N or S, and an id with neither is passed through (corrected, see Findings). |
| StopsToStations.StripAsWrittenAgrees | src/mta_stops_to_stations.py:44-48 | When every id ends in N or S, the loop as written succeeds and yields each id minus its last character, in order. |
| StopsToStations.StaleStationCounterexample | src/mta_stops_to_stations.py:45-48 | As written, ["101N","102"] yields ["101","101"], and ["102"] alone raises. The corrected stations are ["101","102"]. |
| StopsToStations.WithSuffixMembers | src/mta_stops_to_stations.py:72-77 | The ids collected for a direction are exactly the line's ids that end in that letter. |
| StopsToStations.SuffixedKeyInjective | src/mta_stops_to_stations.py:68-69 | Two lines with the same `<line>N` (or `<line>S`) key are the same line, so no two lines share a key. |
| StopsToStations.SplitDirectionalityAndDedupe | src/mta_stops_to_stations.py:64-84 | The north keys are exactly `line+"N"` and the south keys exactly `line+"S"`, one per input line. Each list holds, once each, exactly the line's ids ending in N (resp. S). Ids with neither suffix appear in neither map. |
| StopsToStations.EmptyDirectionMaps | src/mta_stops_to_stations.py:65-69 | The first pass creates exactly the `line+"N"` and `line+"S"` keys, each with an empty list. |
| StopsToStations.AppendDirectionalIds | src/mta_stops_to_stations.py:71-77 | The second pass keeps the keys. It sets each line's N list to its N-ending ids and its S list to its S-ending ids, in order with repeats. |
| StopsToStations.AppendStep | src/mta_stops_to_stations.py:72-77 | Filling one line's key leaves every other line's list as it was. |
| StopsToStations.DedupeDirectionMaps | src/mta_stops_to_stations.py:79-82 | The third pass keeps the keys. Each list becomes the distinct ids of its direction. |
| StopsToStations.DedupeStep | src/mta_stops_to_stations.py:80-82 | Deduplicating one line's list leaves every other line's list as it was. |
| StopsToStations.SplitIds | src/mta_stops_to_stations.py:73-77 | One line's ids are split into its N-ending and its S-ending ids, in order. Any other id is dropped. |
| StopsToStations.OtherKeysUntouched | src/mta_stops_to_stations.py:75-82 | Writing `k+"N"` (or `k+"S"`) never touches another line's key. |
| LocalWip.LineEntitiesIsSubsequence | local_wip.py:64-67 | The kept entities are an order-preserving subsequence of the input entities. |
| LocalWip.LineEntitiesMembers | local_wip.py:65-67 | An entity is kept if and only if it has a trip update with stop times whose route id equals the requested line. Vehicle-only entities are always dropped, and no shuttle route id is substituted. |
| LocalWip.ExtractSubwayLine | local_wip.py:58-71 | A message without entities raises KeyError. Otherwise the header is copied unchanged, and the entities are exactly the kept ones in feed order. |
| LocalWip.MatchTimesArrivals | local_wip.py:83-85 | Within one entity, the scan succeeds if and only if every update at the stop has an arrival; otherwise it raises KeyError. On success it yields their arrival times, one per matching update, in order. |
| LocalWip.MatchingMembers | local_wip.py:83-84 | The matching updates are exactly the entity's updates whose stop id is station+direction. |
| LocalWip.ScanIsPrefixOfArrivals | local_wip.py:80-86 | The result is the full arrival list of the first k entities, for some k: entity order, then update order. |
| LocalWip.ArrivalsSound | local_wip.py:83-85 | Every time in the full arrival list is the arrival of an update at the target stop. |
| LocalWip.ScanSound | local_wip.py:77-86 | Every returned time is the arrival time of an update whose stop id is station+direction. |
| LocalWip.ScanFailsOnlyOnBadFeed | local_wip.py:80-86 | The scan raises only on a feed on which the full walk would raise too. |
| LocalWip.ScanTakesAllBelowLimit | local_wip.py:80-86 | When the feed holds no more matches than the limit, all of them are returned. |
| LocalWip.ScanBound | local_wip.py:81-86 | With a limit of 0 or less, the result is empty. Otherwise its length is at most limit − 1 + m, where m is the most matches in one entity, so with one match per entity it is at most the limit. |
| LocalWip.LimitExceededExample | local_wip.py:80-86 | One entity with three matches and a limit of 2 returns all three times: the limit is checked only between entities. |
| LocalWip.FindNextArrivalTimes | local_wip.py:73-87 | The nested loops with the early break compute Scan from a count of 0, including each KeyError. |
| CreateData.NameToIdsLists | setup/create_data.py:21-26 | A name is a key if and only if some qualifying row has it. Its list holds those rows' ids in row order, duplicates kept. |
| CreateData.NameToIdsNonEmpty | setup/create_data.py:16-26 | Every key of the name map has a non-empty list. |
| CreateData.IdToNameLastRow | setup/create_data.py:21-28 | An id is a key if and only if some qualifying row carries it. It maps to the name of the last such row. |
| CreateData.IdListedUnderItsName | setup/create_data.py:26-28 | Every id of the id map is listed under its own name in the name map. |
| CreateData.NonQualifyingRowIgnored | setup/create_data.py:22-24 | A row with a missing or empty name or id changes neither map, wherever it stands. |
| CreateData.LoadStopsMaps | setup/create_data.py:16-32 | A failed read gives None (the source's `(None, None)`). Otherwise the loop yields exactly NameToIds and IdToName of the rows. |

## Left out

- HTTP fetching (`api_to_bin`) and protobuf decoding (`bin_to_feedmessage`) are not modelled: network I/O and foreign libraries. The decoded message is an input datatype, and `GetStopsForLines` takes each known line's entities as an input map.
- `get_subway_selection`, `fetch_data_from_input` and the countdown in `main` (local_wip.py) are not modelled. They are interactive prompts, an undefined `SUBWAY_SELECTOR_MAP`, and wall-clock and floating-point arithmetic.
- The JSON dumps in `extract_subway_line` and in setup/create_data.py, and the CSV file reading, are not modelled: file I/O. A read is an input `CsvRead`, and any exception while reading is `ReadFailure`.
- local_app.py is not part of this model. It is web plumbing around a function that does not exist.
- The default argument of `get_stops_for_lines` (all lines of the line list) is not modelled; `GetStopsForLines` always takes the requested lines. The error messages that `get_realtime_data` and `load_stops_maps` print before returning `None` are not modelled either: console output.
- Missing `trip`, `routeId` or `stopId` keys are not modelled. The entity datatype always carries them, so the KeyErrors they would raise are not represented.
- An absent `stopTimeUpdate` key and an empty list are the same value, the empty sequence. The protobuf-to-dict conversion never emits an empty repeated field, so the two do not occur apart.
- Arrival times are integers. The dict conversion renders them as strings, and the program converts them with `int()` only when printing.
- StopsToStations.Dedupe: promises no order for its result, because the order of `list(set(...))` is unspecified in Python.
- StopsToStations.RemoveDirectionalityAndDedupe: requires non-empty ids, because an empty id makes the source raise IndexError at `station[-1]`. `StripAsWritten` models that error.
- StopsToStations.SplitDirectionalityAndDedupe: requires non-empty ids for the same reason. It fills the north and south maps in the same loops as the source.
- The `LineEntities`, `Scan` and fold functions define the result order. Python dict iteration order over the line keys is not modelled: the maps are Dafny maps, and the order in which the loops visit keys does not affect the result.

## Findings

| source | as written | input that shows it | evidently intended | confidence | as-written member | corrected member |
|---|---|---|---|---|---|---|
| src/mta_stops_to_stations.py:45-48 | An id without an N or S suffix does not assign `new_station`. The previous id's station is appended in its place, or UnboundLocalError is raised when no earlier id had a suffix. | line ids `["101N", "102"]` give `["101", "101"]`; `["102"]` alone raises | ids without a direction are kept unchanged, as the docstring's example `["124", "124N", "124S"]` → `"124"` implies | not executed | StopsToStations.StaleStationCounterexample | StopsToStations.RemoveDirectionalityAndDedupe |
