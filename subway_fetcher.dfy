/**
 * The line registry of src/mta_subway_fetcher.py: which feed endpoint
 * serves each public line, which internal route id a shuttle uses, and the
 * URL lookup get_realtime_data performs before it fetches anything.
 */
module SubwayFetcher {
  import opened Wrappers
  import opened Lists

  /** `SUBWAY_LINE_URL_SUFFIX`: line -> feed endpoint suffix. */
  const SubwayLineUrlSuffix: map<string, string> := map[
    "A" := "-ace", "C" := "-ace", "E" := "-ace", "Sr" := "-ace",
    "B" := "-bdfm", "D" := "-bdfm", "F" := "-bdfm", "M" := "-bdfm", "Sf" := "-bdfm",
    "G" := "-g",
    "J" := "-jz", "Z" := "-jz",
    "N" := "-nqrw", "Q" := "-nqrw", "R" := "-nqrw", "W" := "-nqrw",
    "L" := "-l",
    "1" := "", "2" := "", "3" := "", "4" := "", "5" := "", "6" := "", "7" := "", "S" := "",
    "SIR" := "-si"
  ]

  /** `SHUTTLE_INTERNAL_MAPPING`: shuttle line -> route id used inside the feed. */
  const ShuttleInternalMapping: map<string, string> := map["Sr" := "H", "Sf" := "FS", "S" := "GS", "SIR" := "SI"]

  /** `SUBWAY_LINE_LIST`: the keys of the suffix table, in the order they are declared. */
  const SubwayLineList: seq<string> := [
    "A", "C", "E", "Sr", "B", "D", "F", "M", "Sf", "G", "J", "Z",
    "N", "Q", "R", "W", "L", "1", "2", "3", "4", "5", "6", "7", "S", "SIR"
  ]

  const SubwayBaseUrl: string := "https://api-endpoint.mta.info/Dataservice/mtagtfsfeeds/nyct%2Fgtfs"

  /** A line get_realtime_data accepts: one listed in SUBWAY_LINE_LIST. */
  predicate IsKnownLine(line: string)
  {
    line in SubwayLineList
  }

  /** The route id get_stops_for_lines filters on for `line`. */
  function RouteIdFor(line: string): string
  {
    if line in ShuttleInternalMapping then ShuttleInternalMapping[line] else line
  }

  /**
   * The URL get_realtime_data fetches for `line`; None for a line outside
   * the suffix table, where the source catches the KeyError and returns
   * None before any fetch.
   */
  function RealtimeUrl(line: string): (r: Option<string>)
    ensures r.Some? <==> IsKnownLine(line)
    ensures r.Some? ==> SubwayBaseUrl <= r.value
  {
    SubwayLineListIsKeys();
    if line in SubwayLineUrlSuffix then Some(SubwayBaseUrl + SubwayLineUrlSuffix[line]) else None
  }

  /** SUBWAY_LINE_LIST holds exactly the suffix table's keys, each once. */
  lemma SubwayLineListIsKeys()
    ensures NoDup(SubwayLineList)
    ensures forall line :: line in SubwayLineList <==> line in SubwayLineUrlSuffix
  {
  }

  /** The numbered lines and the 42 St shuttle share the feed at the bare base URL. */
  lemma NumberedLinesUseBaseUrl(line: string)
    requires line in ["1", "2", "3", "4", "5", "6", "7", "S"]
    ensures RealtimeUrl(line) == Some(SubwayBaseUrl)
  {
    assert line in SubwayLineUrlSuffix && SubwayLineUrlSuffix[line] == "";
    assert SubwayBaseUrl + "" == SubwayBaseUrl;
  }

  /** Every shuttle with a route-id override is a line of the suffix table. */
  lemma ShuttleLinesAreKnown()
    ensures forall line | line in ShuttleInternalMapping :: IsKnownLine(line) && line in SubwayLineUrlSuffix
  {
  }

  /** The four shuttle overrides, and the identity for every other line. */
  lemma RouteIdOverrides(line: string)
    ensures RouteIdFor("Sr") == "H" && RouteIdFor("Sf") == "FS"
    ensures RouteIdFor("S") == "GS" && RouteIdFor("SIR") == "SI"
    ensures line !in ["Sr", "Sf", "S", "SIR"] ==> RouteIdFor(line) == line
  {
  }
}
