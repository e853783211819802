/**
 * The two feed post-processing steps of local_wip.py: keeping only one
 * line's trip updates, and reading off the next arrival times at a stop.
 */
module LocalWip {
  import opened Wrappers
  import opened Lists
  import opened Feed

  /** The error the program raises when a key it subscripts is absent. */
  const KeyError: string := "KeyError"

  // ---------------------------------------------------------------------
  // extract_subway_line
  // ---------------------------------------------------------------------

  /**
   * The filter of extract_subway_line: a trip update with at least one stop
   * time, for exactly `subwayLine` (no shuttle route id is substituted).
   */
  predicate KeepsEntity(e: Entity, subwayLine: RouteId)
  {
    && e.tripUpdate.Some?
    && e.tripUpdate.value.stopTimeUpdates != []
    && e.tripUpdate.value.routeId == subwayLine
  }

  /** The kept entities, in feed order. */
  function LineEntities(es: seq<Entity>, subwayLine: RouteId): seq<Entity>
  {
    if es == [] then []
    else LineEntities(es[..|es| - 1], subwayLine) + (if KeepsEntity(es[|es| - 1], subwayLine) then [es[|es| - 1]] else [])
  }

  /** The kept entities are the input's entities in their order, some left out. */
  lemma {:induction false} LineEntitiesIsSubsequence(es: seq<Entity>, subwayLine: RouteId)
    ensures IsSubsequence(LineEntities(es, subwayLine), es)
    decreases |es|
  {
    if es != [] {
      var init := es[..|es| - 1];
      LineEntitiesIsSubsequence(init, subwayLine);
      var last := es[|es| - 1];
      if KeepsEntity(last, subwayLine) {
        var r := LineEntities(es, subwayLine);
        assert r[..|r| - 1] == LineEntities(init, subwayLine);
      } else {
        assert LineEntities(es, subwayLine) == LineEntities(init, subwayLine);
        SubsequenceOfInit(LineEntities(init, subwayLine), es);
      }
    }
  }

  /** A subsequence of all but the last element is a subsequence of the whole. */
  lemma {:induction false} SubsequenceOfInit<T>(xs: seq<T>, ys: seq<T>)
    requires ys != [] && IsSubsequence(xs, ys[..|ys| - 1])
    ensures IsSubsequence(xs, ys)
    decreases |ys|, 1
  {
    if xs != [] && xs[|xs| - 1] == ys[|ys| - 1] {
      SubsequenceDropLast(xs, ys[..|ys| - 1]);
    }
  }

  /** Dropping the last element of a subsequence keeps it a subsequence. */
  lemma {:induction false} SubsequenceDropLast<T>(xs: seq<T>, ys: seq<T>)
    requires xs != [] && IsSubsequence(xs, ys)
    ensures IsSubsequence(xs[..|xs| - 1], ys)
    decreases |ys| + 1, 0
  {
    if xs[|xs| - 1] == ys[|ys| - 1] {
      SubsequenceOfInit(xs[..|xs| - 1], ys);
    } else {
      SubsequenceDropLast(xs, ys[..|ys| - 1]);
      SubsequenceOfInit(xs[..|xs| - 1], ys);
    }
  }

  /** An entity is kept exactly when it is in the input and passes the filter. */
  lemma {:induction false} LineEntitiesMembers(es: seq<Entity>, subwayLine: RouteId)
    ensures forall e :: e in LineEntities(es, subwayLine) <==> e in es && KeepsEntity(e, subwayLine)
    decreases |es|
  {
    if es != [] {
      LineEntitiesMembers(es[..|es| - 1], subwayLine);
      assert es == es[..|es| - 1] + [es[|es| - 1]];
    }
  }

  /**
   * extract_subway_line without its JSON dump: the header is copied and the
   * entity list is built by appending each kept entity in turn. A decoded
   * message without entities has no `entity` key, so the loop's subscript
   * raises KeyError.
   */
  method ExtractSubwayLine(subwayLine: RouteId, subwayGroup: FeedMessage) returns (r: Result<FeedMessage, string>)
    ensures r.Failure? <==> subwayGroup.entities == []
    ensures r.Failure? ==> r.error == KeyError
    ensures r.Success? ==> r.value.header == subwayGroup.header
    ensures r.Success? ==> r.value.entities == LineEntities(subwayGroup.entities, subwayLine)
  {
    var es := subwayGroup.entities;
    if es == [] {
      return Failure(KeyError);
    }
    var entities: seq<Entity> := [];
    for i := 0 to |es|
      invariant entities == LineEntities(es[..i], subwayLine)
    {
      assert es[..i + 1][..i] == es[..i];
      var e := es[i];
      if e.tripUpdate.Some? && e.tripUpdate.value.stopTimeUpdates != [] && e.tripUpdate.value.routeId == subwayLine {
        entities := entities + [e];
      }
    }
    assert es[..|es|] == es;
    return Success(FeedMessage(subwayGroup.header, entities));
  }

  // ---------------------------------------------------------------------
  // find_next_arrival_times
  // ---------------------------------------------------------------------

  /** `p` in front of a successful result; a failure passes through. */
  function Prepend(p: seq<int>, r: Result<seq<int>, string>): Result<seq<int>, string>
  {
    if r.Success? then Success(p + r.value) else r
  }

  lemma PrependNil(r: Result<seq<int>, string>)
    ensures Prepend([], r) == r
  {
    if r.Success? {
      assert [] + r.value == r.value;
    }
  }

  lemma PrependTwice(p: seq<int>, q: seq<int>, r: Result<seq<int>, string>)
    ensures Prepend(p, Prepend(q, r)) == Prepend(p + q, r)
  {
    if r.Success? {
      assert p + (q + r.value) == (p + q) + r.value;
    }
  }

  /** The updates of `us` at `target`, in order. */
  function Matching(us: seq<StopTimeUpdate>, target: StopId): seq<StopTimeUpdate>
  {
    if us == [] then []
    else (if us[0].stopId == target then [us[0]] else []) + Matching(us[1..], target)
  }

  /**
   * The inner loop over one entity's stop time updates: the arrival time of
   * each update at `target`, in order; a KeyError for a matching update
   * without an arrival.
   */
  function MatchTimes(us: seq<StopTimeUpdate>, target: StopId): Result<seq<int>, string>
  {
    if us == [] then Success([])
    else if us[0].stopId != target then MatchTimes(us[1..], target)
    else if us[0].arrival.None? then Failure(KeyError)
    else Prepend([us[0].arrival.value], MatchTimes(us[1..], target))
  }

  /**
   * The times are exactly the arrivals of the matching updates, and the scan
   * fails exactly when one of them has no arrival.
   */
  lemma {:induction false} MatchTimesArrivals(us: seq<StopTimeUpdate>, target: StopId)
    ensures MatchTimes(us, target).Success? <==> forall u | u in Matching(us, target) :: u.arrival.Some?
    ensures MatchTimes(us, target).Success? ==>
      && |MatchTimes(us, target).value| == |Matching(us, target)|
      && forall i | 0 <= i < |Matching(us, target)| :: MatchTimes(us, target).value[i] == Matching(us, target)[i].arrival.value
    decreases |us|
  {
    if us != [] {
      MatchTimesArrivals(us[1..], target);
      if us[0].stopId == target {
        assert Matching(us, target) == [us[0]] + Matching(us[1..], target);
      } else {
        assert Matching(us, target) == Matching(us[1..], target);
      }
    }
  }

  /** Every update `Matching` yields is one of `us` at `target`. */
  lemma {:induction false} MatchingMembers(us: seq<StopTimeUpdate>, target: StopId)
    ensures forall u :: u in Matching(us, target) <==> u in us && u.stopId == target
    decreases |us|
  {
    if us != [] {
      MatchingMembers(us[1..], target);
      assert us == [us[0]] + us[1..];
    }
  }

  /**
   * `e['tripUpdate']['stopTimeUpdate']` followed by the inner loop: a
   * KeyError when the entity has no trip update or no stop times.
   */
  function EntityTimes(e: Entity, target: StopId): Result<seq<int>, string>
  {
    if e.tripUpdate.None? || e.tripUpdate.value.stopTimeUpdates == [] then Failure(KeyError)
    else MatchTimes(e.tripUpdate.value.stopTimeUpdates, target)
  }

  /** All arrival times at `target` over all entities, in entity order. */
  function Arrivals(es: seq<Entity>, target: StopId): Result<seq<int>, string>
  {
    if es == [] then Success([])
    else
      var m := EntityTimes(es[0], target);
      if m.Failure? then m else Prepend(m.value, Arrivals(es[1..], target))
  }

  /**
   * The loop of find_next_arrival_times from entity `es[0]` on, with `count`
   * times already collected: it stops before an entity once `count` has
   * reached `limit`, but always takes every match of an entity it inspects.
   */
  function Scan(es: seq<Entity>, target: StopId, limit: int, count: int): Result<seq<int>, string>
  {
    if es == [] || count >= limit then Success([])
    else
      var m := EntityTimes(es[0], target);
      if m.Failure? then m else Prepend(m.value, Scan(es[1..], target, limit, count + |m.value|))
  }

  /** `t` is the arrival time of an update at `target` in one of `es`. */
  ghost predicate ArrivalAt(es: seq<Entity>, target: StopId, t: int)
  {
    exists e, u | e in es && e.tripUpdate.Some? && u in e.tripUpdate.value.stopTimeUpdates ::
      u.stopId == target && u.arrival == Some(t)
  }

  /** The scan returns the times of the first `k` entities, for some `k`: entity order, then update order. */
  lemma {:induction false} ScanIsPrefixOfArrivals(es: seq<Entity>, target: StopId, limit: int, count: int)
    requires Scan(es, target, limit, count).Success?
    ensures exists k | 0 <= k <= |es| :: Arrivals(es[..k], target) == Scan(es, target, limit, count)
    decreases |es|
  {
    if es == [] || count >= limit {
      assert Arrivals(es[..0], target) == Success([]);
    } else {
      var m := EntityTimes(es[0], target);
      ScanIsPrefixOfArrivals(es[1..], target, limit, count + |m.value|);
      var k :| 0 <= k <= |es[1..]| && Arrivals(es[1..][..k], target) == Scan(es[1..], target, limit, count + |m.value|);
      assert es[..k + 1][0] == es[0] && es[..k + 1][1..] == es[1..][..k];
      assert Arrivals(es[..k + 1], target) == Scan(es, target, limit, count);
    }
  }

  /** Every time in a successful `Arrivals` is an arrival at `target`. */
  lemma {:induction false} ArrivalsSound(es: seq<Entity>, target: StopId)
    requires Arrivals(es, target).Success?
    ensures forall t | t in Arrivals(es, target).value :: ArrivalAt(es, target, t)
    decreases |es|
  {
    if es != [] {
      var us := es[0].tripUpdate.value.stopTimeUpdates;
      ArrivalsSound(es[1..], target);
      MatchTimesArrivals(us, target);
      MatchingMembers(us, target);
      var m := MatchTimes(us, target).value;
      forall t | t in Arrivals(es, target).value
        ensures ArrivalAt(es, target, t)
      {
        if t in m {
          var i :| 0 <= i < |m| && m[i] == t;
          var u := Matching(us, target)[i];
          assert u in us && u.stopId == target && u.arrival == Some(t);
          assert es[0] in es;
        } else {
          assert t in Arrivals(es[1..], target).value;
          var e, u :| e in es[1..] && e.tripUpdate.Some? && u in e.tripUpdate.value.stopTimeUpdates && u.stopId == target && u.arrival == Some(t);
          assert e in es;
        }
      }
    }
  }

  /** Every time the scan returns is the arrival time of an update at `target`. */
  lemma ScanSound(es: seq<Entity>, target: StopId, limit: int, count: int)
    requires Scan(es, target, limit, count).Success?
    ensures forall t | t in Scan(es, target, limit, count).value :: ArrivalAt(es, target, t)
  {
    ScanIsPrefixOfArrivals(es, target, limit, count);
    var k :| 0 <= k <= |es| && Arrivals(es[..k], target) == Scan(es, target, limit, count);
    ArrivalsSound(es[..k], target);
    forall t | t in Scan(es, target, limit, count).value
      ensures ArrivalAt(es, target, t)
    {
      var e, u :| e in es[..k] && e.tripUpdate.Some? && u in e.tripUpdate.value.stopTimeUpdates && u.stopId == target && u.arrival == Some(t);
      assert e in es;
    }
  }

  /** The scan fails only on a feed whose full walk would fail too. */
  lemma {:induction false} ScanFailsOnlyOnBadFeed(es: seq<Entity>, target: StopId, limit: int, count: int)
    requires Scan(es, target, limit, count).Failure?
    ensures Arrivals(es, target).Failure?
    decreases |es|
  {
    var m := EntityTimes(es[0], target);
    if m.Success? {
      ScanFailsOnlyOnBadFeed(es[1..], target, limit, count + |m.value|);
    }
  }

  /** When the whole feed has no more than `limit - count` matches, the scan returns all of them. */
  lemma {:induction false} ScanTakesAllBelowLimit(es: seq<Entity>, target: StopId, limit: int, count: int)
    requires Arrivals(es, target).Success? && count + |Arrivals(es, target).value| <= limit
    ensures Scan(es, target, limit, count) == Arrivals(es, target)
    decreases |es|
  {
    if es != [] && count < limit {
      var m := EntityTimes(es[0], target);
      ScanTakesAllBelowLimit(es[1..], target, limit, count + |m.value|);
    }
  }

  /** The number of updates at `target` in an entity's stop times. */
  function EntityMatchCount(e: Entity, target: StopId): nat
  {
    if e.tripUpdate.None? then 0 else |Matching(e.tripUpdate.value.stopTimeUpdates, target)|
  }

  /**
   * The limit is checked only between entities: with at most `most` matches
   * per entity, the scan returns at most `limit - count - 1 + most` times,
   * and none once `count` has reached `limit`.
   */
  lemma {:induction false} ScanBound(es: seq<Entity>, target: StopId, limit: int, count: int, most: nat)
    requires forall e | e in es :: EntityMatchCount(e, target) <= most
    requires Scan(es, target, limit, count).Success?
    ensures |Scan(es, target, limit, count).value| <= if count >= limit then 0 else limit - count - 1 + most
    decreases |es|
  {
    if es != [] && count < limit {
      var us := es[0].tripUpdate.value.stopTimeUpdates;
      MatchTimesArrivals(us, target);
      assert es[0] in es;
      var m := EntityTimes(es[0], target);
      assert forall e | e in es[1..] :: e in es;
      ScanBound(es[1..], target, limit, count + |m.value|, most);
    }
  }

  /**
   * One entity with three updates at the stop and a limit of two: the scan
   * finishes the entity and returns three times.
   */
  lemma LimitExceededExample()
    ensures
      var e := Entity("1", None, Some(TripUpdate("1", [
        StopTimeUpdate("127S", Some(1000)), StopTimeUpdate("127S", Some(2000)), StopTimeUpdate("127S", Some(3000))])));
      Scan([e], "127S", 2, 0) == Success([1000, 2000, 3000])
  {
    var us := [StopTimeUpdate("127S", Some(1000)), StopTimeUpdate("127S", Some(2000)), StopTimeUpdate("127S", Some(3000))];
    assert us[1..][1..][1..] == [];
    assert [3000] + [] == [3000];
    assert MatchTimes(us[1..][1..], "127S") == Success([3000]);
    assert [2000] + [3000] == [2000, 3000];
    assert [1000] + [2000, 3000] == [1000, 2000, 3000];
    assert MatchTimes(us[1..], "127S") == Success([2000, 3000]);
    assert MatchTimes(us, "127S") == Success([1000, 2000, 3000]);
    var e := Entity("1", None, Some(TripUpdate("1", us)));
    assert EntityTimes(e, "127S") == Success([1000, 2000, 3000]);
    assert [e][1..] == [];
    assert [1000, 2000, 3000] + [] == [1000, 2000, 3000];
  }

  /**
   * find_next_arrival_times: the times at `stationName + direction`, walking
   * the entities in order until `nextXTrains` have been counted; a KeyError
   * when an inspected entity lacks a trip update or stop times, or a
   * matching update lacks an arrival. Its input is the dict
   * extract_subway_line builds, whose `entity` key is always present, so an
   * empty entity list is scanned rather than raising.
   */
  method FindNextArrivalTimes(subwayLinesStats: FeedMessage, stationName: string, direction: string, nextXTrains: int)
    returns (r: Result<seq<int>, string>)
    ensures r == Scan(subwayLinesStats.entities, stationName + direction, nextXTrains, 0)
  {
    var fullStationName := stationName + direction;
    var es := subwayLinesStats.entities;
    var inc := 0;
    var arrivalTimes: seq<int> := [];
    var i := 0;
    assert es[0..] == es;
    PrependNil(Scan(es, fullStationName, nextXTrains, 0));
    while i < |es|
      invariant 0 <= i <= |es| && inc == |arrivalTimes|
      invariant Scan(es, fullStationName, nextXTrains, 0) == Prepend(arrivalTimes, Scan(es[i..], fullStationName, nextXTrains, inc))
    {
      if inc >= nextXTrains {
        break;
      }
      var e := es[i];
      if e.tripUpdate.None? || e.tripUpdate.value.stopTimeUpdates == [] {
        return Failure(KeyError);
      }
      var us := e.tripUpdate.value.stopTimeUpdates;
      ghost var before := arrivalTimes;
      var j := 0;
      assert us[0..] == us && arrivalTimes[|before|..] == [];
      PrependNil(MatchTimes(us, fullStationName));
      while j < |us|
        invariant 0 <= j <= |us| && inc == |arrivalTimes|
        invariant |before| <= |arrivalTimes| && arrivalTimes[..|before|] == before
        invariant MatchTimes(us, fullStationName) == Prepend(arrivalTimes[|before|..], MatchTimes(us[j..], fullStationName))
      {
        var u := us[j];
        assert us[j..][1..] == us[j + 1..];
        if u.stopId == fullStationName {
          if u.arrival.None? {
            return Failure(KeyError);
          }
          ghost var found := arrivalTimes[|before|..];
          arrivalTimes := arrivalTimes + [u.arrival.value];
          inc := inc + 1;
          assert arrivalTimes[|before|..] == found + [u.arrival.value];
          PrependTwice(found, [u.arrival.value], MatchTimes(us[j + 1..], fullStationName));
        }
        j := j + 1;
      }
      ghost var found := arrivalTimes[|before|..];
      assert us[|us|..] == [];
      assert found + [] == found;
      assert arrivalTimes == before + found;
      assert es[i..][0] == e && es[i..][1..] == es[i + 1..];
      PrependTwice(before, found, Scan(es[i + 1..], fullStationName, nextXTrains, inc));
      i := i + 1;
    }
    assert Scan(es[i..], fullStationName, nextXTrains, inc) == Success([]);
    assert arrivalTimes + [] == arrivalTimes;
    return Success(arrivalTimes);
  }
}
