/**
 * The row fold of load_stops_maps (setup/create_data.py): the stops table
 * becomes a station-name -> stop-ids multimap and a stop-id -> name map.
 */
module CreateData {
  import opened Wrappers

  /** One CSV row, as `row.get('stop_name')` and `row.get('stop_id')` see it. */
  datatype Row = Row(stopName: Option<string>, stopId: Option<string>)

  /** The outcome of opening and reading the CSV file; any exception is a `ReadFailure`. */
  datatype CsvRead = Rows(rows: seq<Row>) | ReadFailure

  /** `if stop_name and stop_id`: both present and non-empty. */
  predicate Qualifies(row: Row)
  {
    row.stopName.Some? && row.stopName.value != "" && row.stopId.Some? && row.stopId.value != ""
  }

  /** `name_to_ids_map` after the rows, in order: each qualifying row appends its id under its name. */
  function NameToIds(rows: seq<Row>): map<string, seq<string>>
  {
    if rows == [] then map[]
    else
      var m := NameToIds(rows[..|rows| - 1]);
      var row := rows[|rows| - 1];
      if Qualifies(row) then
        var name := row.stopName.value;
        m[name := (if name in m then m[name] else []) + [row.stopId.value]]
      else m
  }

  /** `id_to_name_map` after the rows, in order: each qualifying row maps its id to its name. */
  function IdToName(rows: seq<Row>): map<string, string>
  {
    if rows == [] then map[]
    else
      var m := IdToName(rows[..|rows| - 1]);
      var row := rows[|rows| - 1];
      if Qualifies(row) then m[row.stopId.value := row.stopName.value] else m
  }

  /** The ids of the qualifying rows named `name`, in row order, duplicates kept. */
  function IdsNamed(rows: seq<Row>, name: string): seq<string>
  {
    if rows == [] then []
    else (if Qualifies(rows[0]) && rows[0].stopName.value == name then [rows[0].stopId.value] else []) + IdsNamed(rows[1..], name)
  }

  /** Row `i` qualifies and carries `id`. */
  predicate CarriesId(rows: seq<Row>, i: int, id: string)
    requires 0 <= i < |rows|
  {
    Qualifies(rows[i]) && rows[i].stopId.value == id
  }

  lemma {:induction false} IdsNamedAppend(rows: seq<Row>, row: Row, name: string)
    ensures IdsNamed(rows + [row], name) == IdsNamed(rows, name) + IdsNamed([row], name)
  {
    if rows != [] {
      assert (rows + [row])[1..] == rows[1..] + [row];
      IdsNamedAppend(rows[1..], row, name);
    }
  }

  /**
   * A name is a key exactly when some qualifying row has it, and its list is
   * the ids of those rows in row order.
   */
  lemma {:induction false} NameToIdsLists(rows: seq<Row>, name: string)
    ensures name in NameToIds(rows) <==> IdsNamed(rows, name) != []
    ensures name in NameToIds(rows) ==> NameToIds(rows)[name] == IdsNamed(rows, name)
    decreases |rows|
  {
    if rows != [] {
      var init := rows[..|rows| - 1];
      var row := rows[|rows| - 1];
      NameToIdsLists(init, name);
      assert rows == init + [row];
      IdsNamedAppend(init, row, name);
      assert [row][1..] == [];
    }
  }

  /** Every list in the name map is non-empty: keys only arise from an append. */
  lemma NameToIdsNonEmpty(rows: seq<Row>)
    ensures forall name | name in NameToIds(rows) :: NameToIds(rows)[name] != []
  {
    forall name | name in NameToIds(rows)
      ensures NameToIds(rows)[name] != []
    {
      NameToIdsLists(rows, name);
    }
  }

  /**
   * An id is a key exactly when some qualifying row carries it, and it maps
   * to the name of the last such row.
   */
  lemma {:induction false} IdToNameLastRow(rows: seq<Row>, id: string)
    ensures id in IdToName(rows) <==> exists i | 0 <= i < |rows| :: CarriesId(rows, i, id)
    ensures id in IdToName(rows) ==> exists i | 0 <= i < |rows| ::
      && CarriesId(rows, i, id)
      && IdToName(rows)[id] == rows[i].stopName.value
      && forall j | i < j < |rows| :: !CarriesId(rows, j, id)
    decreases |rows|
  {
    if rows != [] {
      var init := rows[..|rows| - 1];
      var n := |rows| - 1;
      IdToNameLastRow(init, id);
      assert forall i | 0 <= i < n :: CarriesId(init, i, id) == CarriesId(rows, i, id);
      if !CarriesId(rows, n, id) && id in IdToName(rows) {
        var i :| 0 <= i < n && CarriesId(init, i, id) && IdToName(init)[id] == init[i].stopName.value
          && forall j | i < j < n :: !CarriesId(init, j, id);
        assert CarriesId(rows, i, id) && forall j | i < j < |rows| :: !CarriesId(rows, j, id);
      }
    }
  }

  /** Every id in the id map is listed under its own name in the name map. */
  lemma {:induction false} IdListedUnderItsName(rows: seq<Row>, id: string)
    requires id in IdToName(rows)
    ensures IdToName(rows)[id] in NameToIds(rows) && id in NameToIds(rows)[IdToName(rows)[id]]
    decreases |rows|
  {
    var init := rows[..|rows| - 1];
    var row := rows[|rows| - 1];
    if Qualifies(row) && row.stopId.value == id {
    } else {
      IdListedUnderItsName(init, id);
      if Qualifies(row) {
        var name := row.stopName.value;
        var m := NameToIds(init);
        if IdToName(rows)[id] == name {
          assert id in m[name];
        }
      }
    }
  }

  /** A row that does not qualify changes neither map, wherever it stands. */
  lemma {:induction false} NonQualifyingRowIgnored(before: seq<Row>, row: Row, after: seq<Row>)
    requires !Qualifies(row)
    ensures NameToIds(before + [row] + after) == NameToIds(before + after)
    ensures IdToName(before + [row] + after) == IdToName(before + after)
    decreases |after|
  {
    if after == [] {
      assert (before + [row] + after)[..|before|] == before + after;
    } else {
      var init := after[..|after| - 1];
      NonQualifyingRowIgnored(before, row, init);
      assert (before + [row] + after)[..|before| + |after|] == before + [row] + init;
      assert (before + after)[..|before| + |after| - 1] == before + init;
    }
  }

  /**
   * load_stops_maps over a read of the CSV file: `None` (the program's
   * `(None, None)`) when reading fails, otherwise both maps.
   */
  method LoadStopsMaps(csv: CsvRead) returns (r: Option<(map<string, seq<string>>, map<string, string>)>)
    ensures r.None? <==> csv.ReadFailure?
    ensures r.Some? ==> r.value == (NameToIds(csv.rows), IdToName(csv.rows))
  {
    if csv.ReadFailure? {
      return None;
    }
    var rows := csv.rows;
    var nameToIdsMap: map<string, seq<string>> := map[];
    var idToNameMap: map<string, string> := map[];
    for i := 0 to |rows|
      invariant nameToIdsMap == NameToIds(rows[..i])
      invariant idToNameMap == IdToName(rows[..i])
    {
      assert rows[..i + 1][..i] == rows[..i];
      var stopName := rows[i].stopName;
      var stopId := rows[i].stopId;
      if stopName.Some? && stopName.value != "" && stopId.Some? && stopId.value != "" {
        var ids := if stopName.value in nameToIdsMap then nameToIdsMap[stopName.value] else [];
        nameToIdsMap := nameToIdsMap[stopName.value := ids + [stopId.value]];
        idToNameMap := idToNameMap[stopId.value := stopName.value];
      }
    }
    assert rows[..|rows|] == rows;
    return Some((nameToIdsMap, idToNameMap));
  }
}
