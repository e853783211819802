/**
 * The stop topology of src/mta_stops_to_stations.py: the stop ids each
 * line serves, collected from decoded feed entities, and two views of
 * them, one per station (direction suffix removed) and one per direction.
 */
module StopsToStations {
  import opened Wrappers
  import opened Lists
  import opened Feed
  import SubwayFetcher

  type Line = string

  // ---------------------------------------------------------------------
  // get_stops_for_lines
  // ---------------------------------------------------------------------

  /** The stop ids of a `stopTimeUpdate` list, in order. */
  function UpdateStopIds(us: seq<StopTimeUpdate>): seq<StopId>
  {
    seq(|us|, i requires 0 <= i < |us| => us[i].stopId)
  }

  /** The vehicle test of get_stops_for_lines, without its "not yet collected" part. */
  predicate VehicleMatches(e: Entity, routeId: RouteId)
  {
    && e.vehicle.Some?
    && e.vehicle.value.routeId == routeId
    && e.vehicle.value.stopId.Some?
    && e.vehicle.value.stopId.value != ""
  }

  /** The trip-update test of get_stops_for_lines: right route, non-empty `stopTimeUpdate`. */
  predicate TripMatches(e: Entity, routeId: RouteId)
  {
    && e.tripUpdate.Some?
    && e.tripUpdate.value.routeId == routeId
    && e.tripUpdate.value.stopTimeUpdates != []
  }

  /** Entity `e` names stop `id` for route `routeId`, as a vehicle position or in its trip update. */
  predicate Names(e: Entity, routeId: RouteId, id: StopId)
  {
    || (VehicleMatches(e, routeId) && e.vehicle.value.stopId.value == id)
    || (TripMatches(e, routeId) && id in UpdateStopIds(e.tripUpdate.value.stopTimeUpdates))
  }

  /** Appends to `acc`, in order, each of `ids` that is not in it yet. */
  function AppendNew(acc: seq<StopId>, ids: seq<StopId>): seq<StopId>
    decreases |ids|
  {
    if ids == [] then acc
    else AppendNew(if ids[0] in acc then acc else acc + [ids[0]], ids[1..])
  }

  /**
   * The `elif` branch runs on `e` with `acc` collected so far: the trip update
   * matches, and the vehicle does not match or its stop is already in `acc`.
   */
  predicate TripTaken(acc: seq<StopId>, e: Entity, routeId: RouteId)
  {
    TripMatches(e, routeId) && !(VehicleMatches(e, routeId) && e.vehicle.value.stopId.value !in acc)
  }

  /** What one entity adds to a line's list: the vehicle branch, else the trip-update branch. */
  function CollectFrom(acc: seq<StopId>, e: Entity, routeId: RouteId): seq<StopId>
  {
    if VehicleMatches(e, routeId) && e.vehicle.value.stopId.value !in acc then
      acc + [e.vehicle.value.stopId.value]
    else if TripMatches(e, routeId) then
      AppendNew(acc, UpdateStopIds(e.tripUpdate.value.stopTimeUpdates))
    else
      acc
  }

  /** A line's list after scanning the entities `es` in order, starting from `acc`. */
  function Collect(acc: seq<StopId>, es: seq<Entity>, routeId: RouteId): seq<StopId>
    decreases |es|
  {
    if es == [] then acc else Collect(CollectFrom(acc, es[0], routeId), es[1..], routeId)
  }

  /** The list get_stops_for_lines builds for a line whose feed holds `es`. */
  function StopsOfLine(es: seq<Entity>, routeId: RouteId): seq<StopId>
  {
    Collect([], es, routeId)
  }

  lemma {:induction false} AppendNewProperties(acc: seq<StopId>, ids: seq<StopId>)
    ensures acc <= AppendNew(acc, ids)
    ensures NoDup(acc) ==> NoDup(AppendNew(acc, ids))
    ensures forall id :: id in AppendNew(acc, ids) <==> id in acc || id in ids
    decreases |ids|
  {
    if ids != [] {
      var next := if ids[0] in acc then acc else acc + [ids[0]];
      AppendNewProperties(next, ids[1..]);
      assert ids == [ids[0]] + ids[1..];
    }
  }

  /**
   * First-seen order: the list after the first `j` ids is a prefix of the
   * list after all of them, so each new id lands after every id first seen
   * before it.
   */
  lemma {:induction false} AppendNewFirstSeenOrder(acc: seq<StopId>, ids: seq<StopId>, j: nat)
    requires j <= |ids|
    ensures AppendNew(acc, ids[..j]) <= AppendNew(acc, ids)
    decreases j
  {
    if j == 0 {
      assert ids[..0] == [];
      AppendNewProperties(acc, ids);
    } else {
      var next := if ids[0] in acc then acc else acc + [ids[0]];
      assert ids[..j][0] == ids[0] && ids[..j][1..] == ids[1..][..j - 1];
      AppendNewFirstSeenOrder(next, ids[1..], j - 1);
    }
  }

  lemma CollectFromProperties(acc: seq<StopId>, e: Entity, routeId: RouteId)
    ensures acc <= CollectFrom(acc, e, routeId)
    ensures NoDup(acc) ==> NoDup(CollectFrom(acc, e, routeId))
    ensures forall id :: id in CollectFrom(acc, e, routeId) ==> id in acc || Names(e, routeId, id)
    ensures VehicleMatches(e, routeId) ==> e.vehicle.value.stopId.value in CollectFrom(acc, e, routeId)
    ensures TripTaken(acc, e, routeId) ==>
      forall id | id in UpdateStopIds(e.tripUpdate.value.stopTimeUpdates) :: id in CollectFrom(acc, e, routeId)
  {
    if !(VehicleMatches(e, routeId) && e.vehicle.value.stopId.value !in acc) && TripMatches(e, routeId) {
      AppendNewProperties(acc, UpdateStopIds(e.tripUpdate.value.stopTimeUpdates));
    }
  }

  /** Scanning `es[..k]` and then `es[k..]` is scanning `es`. */
  lemma {:induction false} CollectSplit(acc: seq<StopId>, es: seq<Entity>, routeId: RouteId, k: nat)
    requires k <= |es|
    ensures Collect(acc, es, routeId) == Collect(Collect(acc, es[..k], routeId), es[k..], routeId)
    decreases k
  {
    if k > 0 {
      CollectSplit(CollectFrom(acc, es[0], routeId), es[1..], routeId, k - 1);
      assert es[..k][1..] == es[1..][..k - 1];
      assert es[1..][k - 1..] == es[k..];
    }
  }

  lemma {:induction false} CollectProperties(acc: seq<StopId>, es: seq<Entity>, routeId: RouteId)
    ensures acc <= Collect(acc, es, routeId)
    ensures NoDup(acc) ==> NoDup(Collect(acc, es, routeId))
    ensures forall id :: id in Collect(acc, es, routeId) ==>
      id in acc || exists i | 0 <= i < |es| :: Names(es[i], routeId, id)
    decreases |es|
  {
    if es != [] {
      var next := CollectFrom(acc, es[0], routeId);
      CollectFromProperties(acc, es[0], routeId);
      CollectProperties(next, es[1..], routeId);
      forall id | id in Collect(acc, es, routeId)
        ensures id in acc || exists i | 0 <= i < |es| :: Names(es[i], routeId, id)
      {
        if id !in next {
          var i :| 0 <= i < |es[1..]| && Names(es[1..][i], routeId, id);
          assert es[1..][i] == es[i + 1];
        }
      }
    }
  }

  /**
   * Every id that entity `es[i]` contributes, on reaching the scan with the
   * ids collected from `es[..i]`, is in the final list.
   */
  lemma {:induction false} CollectComplete(acc: seq<StopId>, es: seq<Entity>, routeId: RouteId, i: nat)
    requires i < |es|
    ensures VehicleMatches(es[i], routeId) ==> es[i].vehicle.value.stopId.value in Collect(acc, es, routeId)
    ensures TripTaken(Collect(acc, es[..i], routeId), es[i], routeId) ==>
      forall id | id in UpdateStopIds(es[i].tripUpdate.value.stopTimeUpdates) :: id in Collect(acc, es, routeId)
  {
    CollectSplit(acc, es, routeId, i);
    var before := Collect(acc, es[..i], routeId);
    assert es[i..] == [es[i]] + es[i + 1..];
    assert es[i..][1..] == es[i + 1..];
    CollectFromProperties(before, es[i], routeId);
    CollectProperties(CollectFrom(before, es[i], routeId), es[i + 1..], routeId);
  }

  /**
   * A line's list has no duplicates; each id in it is named by an entity of
   * the line's route; and it holds the stop of every matching vehicle and
   * all stops of every matching trip update the `elif` branch takes: its
   * vehicle does not match, or the vehicle's stop was already collected
   * from the earlier entities.
   */
  lemma StopsOfLineContents(es: seq<Entity>, routeId: RouteId)
    ensures NoDup(StopsOfLine(es, routeId))
    ensures forall id :: id in StopsOfLine(es, routeId) ==> exists i | 0 <= i < |es| :: Names(es[i], routeId, id)
    ensures forall i | 0 <= i < |es| && VehicleMatches(es[i], routeId) ::
      es[i].vehicle.value.stopId.value in StopsOfLine(es, routeId)
    ensures forall i, id | 0 <= i < |es| && TripTaken(StopsOfLine(es[..i], routeId), es[i], routeId)
      && id in UpdateStopIds(es[i].tripUpdate.value.stopTimeUpdates) :: id in StopsOfLine(es, routeId)
  {
    CollectProperties([], es, routeId);
    forall i | 0 <= i < |es| {
      CollectComplete([], es, routeId, i);
    }
  }

  /**
   * First-seen order: the list built from the first k entities is a prefix
   * of the list built from all of them.
   */
  lemma StopsOfLineFirstSeenOrder(es: seq<Entity>, routeId: RouteId, k: nat)
    requires k <= |es|
    ensures StopsOfLine(es[..k], routeId) <= StopsOfLine(es, routeId)
  {
    CollectSplit([], es, routeId, k);
    CollectProperties(StopsOfLine(es[..k], routeId), es[k..], routeId);
  }

  /** The scan of one line's entities inside get_stops_for_lines. */
  method CollectLineStops(lineData: seq<Entity>, routeId: RouteId) returns (stops: seq<StopId>)
    ensures stops == StopsOfLine(lineData, routeId)
  {
    stops := [];
    for k := 0 to |lineData|
      invariant StopsOfLine(lineData, routeId) == Collect(stops, lineData[k..], routeId)
    {
      var e := lineData[k];
      ghost var before := stops;
      assert lineData[k..][1..] == lineData[k + 1..];
      if VehicleMatches(e, routeId) && e.vehicle.value.stopId.value !in stops {
        stops := stops + [e.vehicle.value.stopId.value];
      } else if TripMatches(e, routeId) {
        var updates := e.tripUpdate.value.stopTimeUpdates;
        for j := 0 to |updates|
          invariant CollectFrom(before, e, routeId) == AppendNew(stops, UpdateStopIds(updates[j..]))
        {
          assert UpdateStopIds(updates[j..])[1..] == UpdateStopIds(updates[j + 1..]);
          if updates[j].stopId !in stops {
            stops := stops + [updates[j].stopId];
          }
        }
      }
      assert stops == CollectFrom(before, e, routeId);
    }
  }

  /** Why get_stops_for_lines raises, and for which line. */
  datatype StopsError =
    | UnknownLine(line: Line)  // get_realtime_data returns None, and `None['entity']` raises TypeError
    | NoEntities(line: Line)   // the decoded message has no `entity` key, and the subscript raises KeyError

  /** A requested line on which get_stops_for_lines raises. */
  predicate Unfetchable(line: Line, lineEntities: map<Line, seq<Entity>>)
  {
    !SubwayFetcher.IsKnownLine(line) || (line in lineEntities && lineEntities[line] == [])
  }

  /**
   * get_stops_for_lines, with the per-line fetch replaced by `lineEntities`:
   * for each known line, the entities of the message get_realtime_data
   * returns for it. A requested line outside the registry fails, as the
   * source's subscript of the None that get_realtime_data returns does; so
   * does a line whose message has no entities, since the dict conversion
   * then leaves out the `entity` key.
   */
  method GetStopsForLines(subwayLines: seq<Line>, lineEntities: map<Line, seq<Entity>>)
    returns (r: Result<map<Line, seq<StopId>>, StopsError>)
    requires forall line | line in subwayLines && SubwayFetcher.IsKnownLine(line) :: line in lineEntities
    ensures r.Failure? <==> exists line | line in subwayLines :: Unfetchable(line, lineEntities)
    ensures r.Failure? ==> r.error.line in subwayLines && Unfetchable(r.error.line, lineEntities)
    ensures r.Failure? && r.error.UnknownLine? ==> !SubwayFetcher.IsKnownLine(r.error.line)
    ensures r.Failure? && r.error.NoEntities? ==> SubwayFetcher.IsKnownLine(r.error.line)
    ensures r.Success? ==> r.value.Keys == set line | line in subwayLines
    ensures r.Success? ==> forall line | line in r.value ::
      line in lineEntities && r.value[line] == StopsOfLine(lineEntities[line], SubwayFetcher.RouteIdFor(line))
  {
    var linesWithStops: map<Line, seq<StopId>> := map[];
    for n := 0 to |subwayLines|
      invariant linesWithStops.Keys == set line | line in subwayLines[..n]
      invariant forall line | line in subwayLines[..n] :: !Unfetchable(line, lineEntities)
      invariant forall line | line in linesWithStops ::
        line in lineEntities && linesWithStops[line] == StopsOfLine(lineEntities[line], SubwayFetcher.RouteIdFor(line))
    {
      var line := subwayLines[n];
      assert subwayLines[..n + 1] == subwayLines[..n] + [line];
      linesWithStops := linesWithStops[line := []];
      var routeId := if line in SubwayFetcher.ShuttleInternalMapping then SubwayFetcher.ShuttleInternalMapping[line] else line;
      if SubwayFetcher.RealtimeUrl(line).None? {
        assert line in subwayLines && Unfetchable(line, lineEntities);
        return Failure(UnknownLine(line));
      }
      var lineData := lineEntities[line];
      if lineData == [] {
        assert line in subwayLines && Unfetchable(line, lineEntities);
        return Failure(NoEntities(line));
      }
      var stops := CollectLineStops(lineData, routeId);
      linesWithStops := linesWithStops[line := stops];
    }
    assert subwayLines[..|subwayLines|] == subwayLines;
    return Success(linesWithStops);
  }

  // ---------------------------------------------------------------------
  // remove_directionality_and_dedupe, split_directionality_and_dedupe
  // ---------------------------------------------------------------------

  /**
   * `list(set(xs))`: the distinct elements of `xs`. Python leaves their
   * order unspecified, so the contract says nothing about it.
   */
  method Dedupe(xs: seq<string>) returns (ys: seq<string>)
    ensures NoDup(ys)
    ensures forall x :: x in ys <==> x in xs
  {
    ys := [];
    for i := 0 to |xs|
      invariant NoDup(ys)
      invariant forall x :: x in ys <==> x in xs[..i]
    {
      assert xs[..i + 1] == xs[..i] + [xs[i]];
      if xs[i] !in ys {
        ys := ys + [xs[i]];
      }
    }
    assert xs[..|xs|] == xs;
  }

  /** `id[-1] == c`, for a non-empty id. */
  predicate EndsWith(id: StopId, c: char)
  {
    |id| > 0 && id[|id| - 1] == c
  }

  /** The station of a stop id: the id without its trailing N or S; any other id unchanged. */
  function StationOf(id: StopId): string
  {
    if EndsWith(id, 'N') || EndsWith(id, 'S') then id[..|id| - 1] else id
  }

  /** Every id the map lists is non-empty (`station[-1]` raises IndexError on ""). */
  predicate NonEmptyIds(linesWithStops: map<Line, seq<StopId>>)
  {
    forall line, id | line in linesWithStops && id in linesWithStops[line] :: id != ""
  }

  /**
   * remove_directionality_and_dedupe, with ids that carry no direction
   * passed through unchanged (the source's stale-variable defect corrected;
   * see StripAsWritten). Keeps the keys; each list holds, once each,
   * exactly the stations of the line's ids.
   */
  method RemoveDirectionalityAndDedupe(linesWithStops: map<Line, seq<StopId>>) returns (r: map<Line, seq<string>>)
    requires NonEmptyIds(linesWithStops)
    ensures r.Keys == linesWithStops.Keys
    ensures forall line | line in r :: NoDup(r[line])
    ensures forall line, x | line in r ::
      x in r[line] <==> exists id | id in linesWithStops[line] :: StationOf(id) == x
  {
    r := map[];
    var unset := linesWithStops.Keys;
    while unset != {}
      invariant r.Keys == linesWithStops.Keys - unset && unset <= linesWithStops.Keys
      invariant forall line | line in r :: r[line] == []
    {
      var line :| line in unset;
      r := r[line := []];
      unset := unset - {line};
    }
    var todo := linesWithStops.Keys;
    while todo != {}
      invariant todo <= linesWithStops.Keys && r.Keys == linesWithStops.Keys
      invariant forall line | line in todo :: r[line] == []
      invariant forall line | line in r && line !in todo :: NoDup(r[line])
      invariant forall line, x | line in r && line !in todo ::
        x in r[line] <==> exists id | id in linesWithStops[line] :: StationOf(id) == x
    {
      var k :| k in todo;
      var v := linesWithStops[k];
      var stations := r[k];
      for i := 0 to |v|
        invariant forall x :: x in stations <==> exists id | id in v[..i] :: StationOf(id) == x
      {
        assert v[..i + 1] == v[..i] + [v[i]];
        stations := stations + [StationOf(v[i])];
      }
      assert v[..|v|] == v;
      var distinct := Dedupe(stations);
      r := r[k := distinct];
      todo := todo - {k};
    }
  }

  /**
   * The loop of remove_directionality_and_dedupe AS WRITTEN, over one
   * line's ids, before the dedupe. `newStation` is the function-wide
   * variable (None while unbound). An id without an N or S suffix does not
   * assign it, so it appends the previous id's station, or raises
   * UnboundLocalError when no earlier id had a suffix; an empty id raises
   * IndexError. Gives the appended stations and the variable's final value.
   */
  function StripAsWritten(ids: seq<StopId>, newStation: Option<string>): Result<(seq<string>, Option<string>), string>
    decreases |ids|
  {
    if ids == [] then Success(([], newStation))
    else if ids[0] == "" then Failure("IndexError")
    else
      var id := ids[0];
      var current := if EndsWith(id, 'S') || EndsWith(id, 'N') then Some(id[..|id| - 1]) else newStation;
      match current
      case None => Failure("UnboundLocalError")
      case Some(station) =>
        match StripAsWritten(ids[1..], current)
        case Failure(e) => Failure(e)
        case Success((rest, last)) => Success(([station] + rest, last))
  }

  /** The stations of `ids`, in order. */
  function Stations(ids: seq<StopId>): seq<string>
  {
    seq(|ids|, i requires 0 <= i < |ids| => StationOf(ids[i]))
  }

  /** When every id has a direction suffix, the source as written computes the corrected stations. */
  lemma {:induction false} StripAsWrittenAgrees(ids: seq<StopId>, newStation: Option<string>)
    requires forall id | id in ids :: EndsWith(id, 'N') || EndsWith(id, 'S')
    ensures StripAsWritten(ids, newStation).Success?
    ensures StripAsWritten(ids, newStation).value.0 == Stations(ids)
    decreases |ids|
  {
    if ids != [] {
      var id := ids[0];
      assert id in ids;
      assert forall x | x in ids[1..] :: x in ids;
      StripAsWrittenAgrees(ids[1..], Some(id[..|id| - 1]));
      assert Stations(ids) == [StationOf(id)] + Stations(ids[1..]);
    }
  }

  /**
   * The defect, exhibited: "102" has no suffix, so the source appends the
   * stale "101" in its place and loses station 102; with no earlier
   * suffixed id it raises instead. The corrected stations keep "102".
   */
  lemma StaleStationCounterexample()
    ensures StripAsWritten(["101N", "102"], None) == Success((["101", "101"], Some("101")))
    ensures StripAsWritten(["102"], None).Failure?
    ensures Stations(["101N", "102"]) == ["101", "102"]
  {
    assert "101N"[..3] == "101";
    assert !EndsWith("102", 'N') && !EndsWith("102", 'S');
    assert StripAsWritten([], Some("101")) == Success(([], Some("101")));
    assert ["102"][1..] == [] && ["102"][0] == "102" && "102" != "";
    assert ["101"] + [] == ["101"] && ["101"] + ["101"] == ["101", "101"];
    assert StripAsWritten(["102"], Some("101")) == Success((["101"], Some("101")));
    assert ["101N", "102"][1..] == ["102"];
  }

  /** The ids of `ids` that end in `c`, in order, with repeats. */
  function WithSuffix(ids: seq<StopId>, c: char): seq<StopId>
  {
    if ids == [] then []
    else WithSuffix(ids[..|ids| - 1], c) + (if EndsWith(ids[|ids| - 1], c) then [ids[|ids| - 1]] else [])
  }

  lemma {:induction false} WithSuffixMembers(ids: seq<StopId>, c: char)
    ensures forall id :: id in WithSuffix(ids, c) <==> id in ids && EndsWith(id, c)
    decreases |ids|
  {
    if ids != [] {
      WithSuffixMembers(ids[..|ids| - 1], c);
      assert ids == ids[..|ids| - 1] + [ids[|ids| - 1]];
    }
  }

  /** `line + c` names one line only. */
  lemma SuffixedKeyInjective(line: Line, other: Line, c: char)
    requires DirectionKey(line, c) == DirectionKey(other, c)
    ensures line == other
  {
    assert line == (line + [c])[..|line|];
    assert other == (other + [c])[..|other|];
  }

  /** `f"{line}N"` or `f"{line}S"`: ends with `c`, and dropping that gives back the line. */
  function DirectionKey(line: Line, c: char): Line
  {
    line + [c]
  }

  /** The keys of one direction's map: each line's name followed by `c`. */
  function DirectionKeys(lines: set<Line>, c: char): set<Line>
  {
    set line | line in lines :: DirectionKey(line, c)
  }

  /** `ids` holds, once each, exactly the ids of `source` that end with `c`. */
  ghost predicate DistinctWithSuffix(ids: seq<StopId>, source: seq<StopId>, c: char)
  {
    NoDup(ids) && forall id :: id in ids <==> id in source && EndsWith(id, c)
  }

  /**
   * split_directionality_and_dedupe: for each line, `line + "N"` maps to
   * the line's distinct northbound ids and `line + "S"` to its distinct
   * southbound ids; ids with neither suffix are dropped.
   */
  method SplitDirectionalityAndDedupe(linesWithStops: map<Line, seq<StopId>>)
    returns (north: map<Line, seq<StopId>>, south: map<Line, seq<StopId>>)
    requires NonEmptyIds(linesWithStops)
    ensures north.Keys == DirectionKeys(linesWithStops.Keys, 'N')
    ensures south.Keys == DirectionKeys(linesWithStops.Keys, 'S')
    ensures forall line | line in linesWithStops ::
      && DirectionKey(line, 'N') in north && DistinctWithSuffix(north[DirectionKey(line, 'N')], linesWithStops[line], 'N')
      && DirectionKey(line, 'S') in south && DistinctWithSuffix(south[DirectionKey(line, 'S')], linesWithStops[line], 'S')
  {
    north, south := EmptyDirectionMaps(linesWithStops);
    north, south := AppendDirectionalIds(linesWithStops, north, south);
    north, south := DedupeDirectionMaps(linesWithStops, north, south);
  }

  /** First pass of split_directionality_and_dedupe: an empty list per line and direction. */
  method EmptyDirectionMaps(linesWithStops: map<Line, seq<StopId>>) returns (north: map<Line, seq<StopId>>, south: map<Line, seq<StopId>>)
    ensures north.Keys == DirectionKeys(linesWithStops.Keys, 'N') && south.Keys == DirectionKeys(linesWithStops.Keys, 'S')
    ensures AppendedExcept(north, linesWithStops, linesWithStops.Keys, 'N')
    ensures AppendedExcept(south, linesWithStops, linesWithStops.Keys, 'S')
  {
    north, south := map[], map[];
    var unset := linesWithStops.Keys;
    while unset != {}
      invariant unset <= linesWithStops.Keys
      invariant north.Keys == DirectionKeys(linesWithStops.Keys - unset, 'N')
      invariant south.Keys == DirectionKeys(linesWithStops.Keys - unset, 'S')
      invariant forall key | key in north :: north[key] == []
      invariant forall key | key in south :: south[key] == []
    {
      var line :| line in unset;
      north := north[DirectionKey(line, 'N') := []];
      south := south[DirectionKey(line, 'S') := []];
      unset := unset - {line};
    }
  }

  /** Second pass: each line's N ids to `line + "N"`, its S ids to `line + "S"`, in order. */
  method AppendDirectionalIds(linesWithStops: map<Line, seq<StopId>>, north0: map<Line, seq<StopId>>, south0: map<Line, seq<StopId>>)
    returns (north: map<Line, seq<StopId>>, south: map<Line, seq<StopId>>)
    requires NonEmptyIds(linesWithStops)
    requires AppendedExcept(north0, linesWithStops, linesWithStops.Keys, 'N')
    requires AppendedExcept(south0, linesWithStops, linesWithStops.Keys, 'S')
    ensures north.Keys == north0.Keys && south.Keys == south0.Keys
    ensures AppendedExcept(north, linesWithStops, {}, 'N') && AppendedExcept(south, linesWithStops, {}, 'S')
  {
    north, south := north0, south0;
    var todo := linesWithStops.Keys;
    while todo != {}
      invariant todo <= linesWithStops.Keys
      invariant north.Keys == north0.Keys && south.Keys == south0.Keys
      invariant AppendedExcept(north, linesWithStops, todo, 'N') && AppendedExcept(south, linesWithStops, todo, 'S')
    {
      var k :| k in todo;
      var v := linesWithStops[k];
      assert forall id | id in v :: id != "";
      var northIds, southIds := SplitIds(v);
      AppendStep(north, linesWithStops, todo, k, 'N');
      AppendStep(south, linesWithStops, todo, k, 'S');
      north := north[DirectionKey(k, 'N') := northIds];
      south := south[DirectionKey(k, 'S') := southIds];
      todo := todo - {k};
    }
  }

  /** Every line outside `todo` has its `c` ids in `dir`, every line in `todo` still an empty list. */
  ghost predicate AppendedExcept(dir: map<Line, seq<StopId>>, linesWithStops: map<Line, seq<StopId>>, todo: set<Line>, c: char)
  {
    forall line | line in linesWithStops ::
      DirectionKey(line, c) in dir
      && dir[DirectionKey(line, c)] == (if line in todo then [] else WithSuffix(linesWithStops[line], c))
  }

  lemma AppendStep(dir: map<Line, seq<StopId>>, linesWithStops: map<Line, seq<StopId>>, todo: set<Line>, k: Line, c: char)
    requires k in todo && k in linesWithStops && AppendedExcept(dir, linesWithStops, todo, c)
    ensures AppendedExcept(dir[DirectionKey(k, c) := WithSuffix(linesWithStops[k], c)], linesWithStops, todo - {k}, c)
  {
    OtherKeysUntouched(linesWithStops.Keys, k, c);
  }

  /** Third pass: `list(set(...))` on every list. */
  method DedupeDirectionMaps(linesWithStops: map<Line, seq<StopId>>, north0: map<Line, seq<StopId>>, south0: map<Line, seq<StopId>>)
    returns (north: map<Line, seq<StopId>>, south: map<Line, seq<StopId>>)
    requires AppendedExcept(north0, linesWithStops, {}, 'N') && AppendedExcept(south0, linesWithStops, {}, 'S')
    ensures north.Keys == north0.Keys && south.Keys == south0.Keys
    ensures DedupedExcept(north, north0, linesWithStops, {}, 'N') && DedupedExcept(south, south0, linesWithStops, {}, 'S')
  {
    north, south := north0, south0;
    var todo := linesWithStops.Keys;
    while todo != {}
      invariant todo <= linesWithStops.Keys
      invariant north.Keys == north0.Keys && south.Keys == south0.Keys
      invariant DedupedExcept(north, north0, linesWithStops, todo, 'N') && DedupedExcept(south, south0, linesWithStops, todo, 'S')
    {
      var k :| k in todo;
      var northIds := Dedupe(north[DirectionKey(k, 'N')]);
      var southIds := Dedupe(south[DirectionKey(k, 'S')]);
      DedupeStep(north, north0, linesWithStops, todo, k, northIds, 'N');
      DedupeStep(south, south0, linesWithStops, todo, k, southIds, 'S');
      north := north[DirectionKey(k, 'N') := northIds];
      south := south[DirectionKey(k, 'S') := southIds];
      todo := todo - {k};
    }
  }

  /** Lines in `todo` keep their pass-two list; every other line's list is deduplicated. */
  ghost predicate DedupedExcept(dir: map<Line, seq<StopId>>, dir0: map<Line, seq<StopId>>, linesWithStops: map<Line, seq<StopId>>, todo: set<Line>, c: char)
  {
    forall line | line in linesWithStops ::
      DirectionKey(line, c) in dir
      && if line in todo then DirectionKey(line, c) in dir0 && dir[DirectionKey(line, c)] == dir0[DirectionKey(line, c)]
         else DistinctWithSuffix(dir[DirectionKey(line, c)], linesWithStops[line], c)
  }

  lemma DedupeStep(dir: map<Line, seq<StopId>>, dir0: map<Line, seq<StopId>>, linesWithStops: map<Line, seq<StopId>>,
                   todo: set<Line>, k: Line, ids: seq<StopId>, c: char)
    requires k in todo && k in linesWithStops && AppendedExcept(dir0, linesWithStops, {}, c) && DedupedExcept(dir, dir0, linesWithStops, todo, c)
    requires NoDup(ids) && forall id :: id in ids <==> id in dir[DirectionKey(k, c)]
    ensures DedupedExcept(dir[DirectionKey(k, c) := ids], dir0, linesWithStops, todo - {k}, c)
  {
    WithSuffixMembers(linesWithStops[k], c);
    assert DistinctWithSuffix(ids, linesWithStops[k], c);
    OtherKeysUntouched(linesWithStops.Keys, k, c);
  }

  /** The inner loop of split_directionality_and_dedupe's second pass, over one line's ids. */
  method SplitIds(v: seq<StopId>) returns (northIds: seq<StopId>, southIds: seq<StopId>)
    requires forall id | id in v :: id != ""
    ensures northIds == WithSuffix(v, 'N') && southIds == WithSuffix(v, 'S')
  {
    northIds, southIds := [], [];
    for i := 0 to |v|
      invariant northIds == WithSuffix(v[..i], 'N') && southIds == WithSuffix(v[..i], 'S')
    {
      var station := v[i];
      assert v[..i + 1][..i] == v[..i];
      assert station in v;
      if station[|station| - 1] == 'N' {
        northIds := northIds + [station];
      } else if station[|station| - 1] == 'S' {
        southIds := southIds + [station];
      }
    }
    assert v[..|v|] == v;
  }

  /** Writing the key of line `k` leaves every other line's key alone. */
  lemma OtherKeysUntouched(lines: set<Line>, k: Line, c: char)
    ensures forall line | line in lines && line != k :: DirectionKey(line, c) != DirectionKey(k, c)
  {
    forall line | line in lines && line != k
      ensures DirectionKey(line, c) != DirectionKey(k, c)
    {
      if DirectionKey(line, c) == DirectionKey(k, c) { SuffixedKeyInjective(line, k, c); }
    }
  }

}
