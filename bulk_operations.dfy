/** `prepare_bulk_operations`: each row of a DataFrame chunk becomes an
    `UpdateOne(filter, {"$set": ...}, upsert=True)` keyed on the same
    (timestamp, latitude, longitude) triple as the collection's unique index. */
module BulkOperations {
  import opened Wrappers

  /** A DataFrame cell. `Number(None)` is a NaN; `Timestamp` is a datetime64
      value (ticks since the epoch); `Str` and `Null` are the non-numeric
      values a column may hold. */
  datatype Cell = Number(n: Option<real>) | Timestamp(ticks: int) | Str(s: string) | Null

  /** One record of `df.to_dict('records')`: column name to cell. */
  type Row = map<string, Cell>

  datatype Frame = Frame(columns: set<string>, rows: seq<Row>)

  /** A BSON field value of an emitted operation. */
  datatype Field = TimeField(ticks: int) | RealField(x: real) | IntField(i: int) | TextField(s: string) | NullField

  type Document = map<string, Field>

  /** `UpdateOne(filter, {"$set": setFields}, upsert=upsert)`. */
  datatype UpsertOp = UpdateOne(filter: Document, setFields: Document, upsert: bool)

  /** pymongo's ASCENDING. */
  const Ascending: int := 1

  /** The unique compound index that `setup_indexes` asserts. */
  const UniqueIndexName: string := "timestamp_lat_lon_unique"
  const UniqueIndexKeys: seq<(string, int)> :=
    [("timestamp", Ascending), ("latitude", Ascending), ("longitude", Ascending)]

  /** The field names of the unique index. */
  function IndexFieldNames(): (names: set<string>)
    ensures names == {"timestamp", "latitude", "longitude"}
  {
    assert UniqueIndexKeys[0].0 == "timestamp" && UniqueIndexKeys[1].0 == "latitude"
           && UniqueIndexKeys[2].0 == "longitude";
    set k | 0 <= k < |UniqueIndexKeys| :: UniqueIndexKeys[k].0
  }

  const TemperatureUnit: string := "C"
  const WindSpeedUnit: string := "m/s"
  const WindDirectionUnit: string := "degrees"

  /** 'valid_time' if the frame has it, else 'time'. */
  function TimeColumn(columns: set<string>): (c: string)
    ensures c == "valid_time" <==> "valid_time" in columns
    ensures c == "valid_time" || c == "time"
  {
    if "valid_time" in columns then "valid_time" else "time"
  }

  function RequiredColumns(timeCol: string): set<string> {
    {timeCol, "latitude", "longitude", "temperature_c", "wind_speed_mps", "wind_direction_deg"}
  }

  /** `pd.to_datetime(cell).to_pydatetime()`; only datetime cells convert here. */
  function ToDatetime(c: Cell): (r: Option<int>)
    ensures r.Some? <==> c.Timestamp?
    ensures c.Timestamp? ==> r == Some(c.ticks)
  {
    if c.Timestamp? then Some(c.ticks) else None
  }

  /** `isinstance(val, (int, float, np.number)) and not np.isnan(val)`. */
  predicate IsUsableCoordinate(c: Cell) {
    c.Number? && c.n.Some?
  }

  /** `np.isnan(val)`; `None` where numpy raises TypeError on a non-number. */
  function IsNan(c: Cell): (r: Option<bool>)
    ensures r.Some? <==> c.Number?
    ensures r == Some(true) <==> c == Number(None)
  {
    if c.Number? then Some(c.n.None?) else None
  }

  /** `np.isnan(t) and np.isnan(w) and np.isnan(d)`, evaluated left to right
      with short-circuit: a later operand is never looked at once an earlier
      one is a number that is not NaN. */
  function AllWeatherNan(t: Cell, w: Cell, d: Cell): (r: Option<bool>)
    ensures r == Some(true) <==> t == Number(None) && w == Number(None) && d == Number(None)
    ensures !t.Number? ==> r == None
    ensures t.Number? && t.n.Some? ==> r == Some(false)
    ensures t == Number(None) && !w.Number? ==> r == None
    ensures t == Number(None) && w.Number? && w.n.Some? ==> r == Some(false)
    ensures t == Number(None) && w == Number(None) ==> r == IsNan(d)
  {
    var tNan :- IsNan(t);
    if !tNan then Some(false)
    else
      var wNan :- IsNan(w);
      if !wNan then Some(false) else IsNan(d)
  }

  /** Python's `round(x)` on a float: the nearest integer, ties to even. */
  function RoundHalfEven(x: real): (n: int)
    ensures -0.5 <= (n as real) - x <= 0.5
    ensures (n as real) - x == 0.5 || x - (n as real) == 0.5 ==> n % 2 == 0
  {
    var f := x.Floor;
    var frac := x - (f as real);
    if frac < 0.5 then f
    else if frac > 0.5 then f + 1
    else if f % 2 == 0 then f else f + 1
  }

  /** `None if np.isnan(v) else float(v)`; `None` (outer) where numpy raises. */
  function RealOrNull(c: Cell): (r: Option<Field>)
    ensures r.Some? <==> c.Number?
    ensures c == Number(None) ==> r == Some(NullField)
    ensures c.Number? && c.n.Some? ==> r == Some(RealField(c.n.value))
  {
    match c
    case Number(None) => Some(NullField)
    case Number(Some(x)) => Some(RealField(x))
    case _ => None
  }

  /** `None if np.isnan(v) else int(round(v))`. */
  function RoundedOrNull(c: Cell): (r: Option<Field>)
    ensures r.Some? <==> c.Number?
    ensures c == Number(None) ==> r == Some(NullField)
    ensures c.Number? && c.n.Some? ==> r == Some(IntField(RoundHalfEven(c.n.value)))
  {
    match c
    case Number(None) => Some(NullField)
    case Number(Some(x)) => Some(IntField(RoundHalfEven(x)))
    case _ => None
  }

  /** The operation for one record, or `None` when the record is skipped
      (`continue`, including the `except Exception` path of a missing key or a
      failed conversion). The checks are made in the order of the loop body;
      the contract says which records pass them all and what their operation
      holds. */
  function OperationFor(row: Row, timeCol: string): (r: Option<UpsertOp>)
    ensures r.Some? <==> Eligible(row, timeCol)
    ensures r.Some? ==> Describes(r.value, row, timeCol)
  {
    if timeCol !in row then None
    else
      var ts :- ToDatetime(row[timeCol]);
      if "latitude" !in row || "longitude" !in row || "temperature_c" !in row
         || "wind_speed_mps" !in row || "wind_direction_deg" !in row then None
      else
        var lat, lon := row["latitude"], row["longitude"];
        var temp, speed, dir := row["temperature_c"], row["wind_speed_mps"], row["wind_direction_deg"];
        if !(IsUsableCoordinate(lat) && IsUsableCoordinate(lon)) then None
        else
          var allNan :- AllWeatherNan(temp, speed, dir);
          if allNan then None
          else
            match (RealOrNull(temp), RealOrNull(speed), RoundedOrNull(dir))
            case (Some(temperature), Some(windSpeed), Some(windDirection)) =>
              Some(BuildOp(ts, lat.n.value, lon.n.value, temperature, windSpeed, windDirection))
            case _ => None
  }

  /** The field names of the filter (and of the unique index). */
  const KeyFields: set<string> := {"timestamp", "latitude", "longitude"}

  /** The field names of the `$set` document. */
  const SetFields: set<string> := KeyFields + {"temperature", "temperatureUnit", "windSpeed",
                                               "windSpeedUnit", "windDirection", "windDirectionUnit"}

  /** The filter is the index key; the `$set` repeats it and adds the three
      readings with their fixed units; the operation upserts. */
  function BuildOp(ts: int, lat: real, lon: real,
                   temperature: Field, windSpeed: Field, windDirection: Field): (op: UpsertOp)
    ensures op.filter.Keys == KeyFields && op.setFields.Keys == SetFields
    ensures op.filter["timestamp"] == TimeField(ts)
    ensures op.filter["latitude"] == RealField(lat) && op.filter["longitude"] == RealField(lon)
    ensures forall f :: f in op.filter ==> op.setFields[f] == op.filter[f]
    ensures op.setFields["temperature"] == temperature
    ensures op.setFields["windSpeed"] == windSpeed
    ensures op.setFields["windDirection"] == windDirection
    ensures op.setFields["temperatureUnit"] == TextField("C")
    ensures op.setFields["windSpeedUnit"] == TextField("m/s")
    ensures op.setFields["windDirectionUnit"] == TextField("degrees")
    ensures op.upsert
  {
    var key := map["timestamp" := TimeField(ts), "latitude" := RealField(lat), "longitude" := RealField(lon)];
    UpdateOne(key, key + map[
      "temperature" := temperature, "temperatureUnit" := TextField(TemperatureUnit),
      "windSpeed" := windSpeed, "windSpeedUnit" := TextField(WindSpeedUnit),
      "windDirection" := windDirection, "windDirectionUnit" := TextField(WindDirectionUnit)], true)
  }

  // ----- What a record must satisfy, and what its operation says -----

  /** A record yields an operation exactly when: it has every needed column,
      its time converts, both coordinates are numbers that are not NaN, all
      three weather values are numbers (NaN allowed), and not all three are NaN. */
  predicate Eligible(row: Row, timeCol: string) {
    && timeCol in row && row[timeCol].Timestamp?
    && "latitude" in row && "longitude" in row && "temperature_c" in row
    && "wind_speed_mps" in row && "wind_direction_deg" in row
    && row["latitude"].Number? && row["latitude"].n.Some?
    && row["longitude"].Number? && row["longitude"].n.Some?
    && row["temperature_c"].Number? && row["wind_speed_mps"].Number? && row["wind_direction_deg"].Number?
    && !(row["temperature_c"].n.None? && row["wind_speed_mps"].n.None? && row["wind_direction_deg"].n.None?)
  }

  /** A NaN reading is stored as null, a number as itself. */
  function Reading(c: Cell): Field
    requires c.Number?
  {
    if c.n.None? then NullField else RealField(c.n.value)
  }

  /** What the operation for an eligible record holds: the filter has exactly
      the unique-index fields with the record's values, the `$set` repeats
      them, NaN readings become null, the wind direction is rounded to whole
      degrees, the units are fixed, and the operation upserts. */
  predicate Describes(op: UpsertOp, row: Row, timeCol: string)
    requires Eligible(row, timeCol)
  {
    && op.filter.Keys == KeyFields
    && op.filter["timestamp"] == TimeField(row[timeCol].ticks)
    && op.filter["latitude"] == RealField(row["latitude"].n.value)
    && op.filter["longitude"] == RealField(row["longitude"].n.value)
    && (forall f :: f in op.filter ==> f in op.setFields && op.setFields[f] == op.filter[f])
    && op.setFields.Keys == SetFields
    && op.setFields["temperature"] == Reading(row["temperature_c"])
    && op.setFields["windSpeed"] == Reading(row["wind_speed_mps"])
    && op.setFields["windDirection"] == (if row["wind_direction_deg"].n.None? then NullField
                                        else IntField(RoundHalfEven(row["wind_direction_deg"].n.value)))
    && op.setFields["temperatureUnit"] == TextField("C")
    && op.setFields["windSpeedUnit"] == TextField("m/s")
    && op.setFields["windDirectionUnit"] == TextField("degrees")
    && op.upsert
  }

  /** The filter of every operation holds exactly the fields of the unique index. */
  lemma FilterFieldsAreIndexFields(row: Row, timeCol: string)
    requires OperationFor(row, timeCol).Some?
    ensures OperationFor(row, timeCol).value.filter.Keys == IndexFieldNames()
  {
  }

  // ----- The whole chunk -----

  /** The values of the `Some` entries, in order. */
  function Kept<T>(xs: seq<Option<T>>): (kept: seq<T>)
    ensures |kept| <= |xs|
  {
    if xs == [] then []
    else Kept(xs[..|xs| - 1]) + if xs[|xs| - 1].Some? then [xs[|xs| - 1].value] else []
  }

  /** The positions of the `Some` entries, in order. */
  function KeptPositions<T>(xs: seq<Option<T>>): seq<nat> {
    if xs == [] then []
    else KeptPositions(xs[..|xs| - 1]) + if xs[|xs| - 1].Some? then [|xs| - 1] else []
  }

  /** `Kept` is an order-preserving filter: its k-th value sits at position
      `KeptPositions[k]`, the positions increase strictly, and they are
      exactly the `Some` positions. */
  lemma {:induction false} KeptInOrder<T>(xs: seq<Option<T>>)
    ensures var kept, src := Kept(xs), KeptPositions(xs);
            && |src| == |kept|
            && (forall k :: 0 <= k < |src| ==> src[k] < |xs| && xs[src[k]] == Some(kept[k]))
            && (forall k, l :: 0 <= k < l < |src| ==> src[k] < src[l])
            && (forall j :: 0 <= j < |xs| ==> (j in src <==> xs[j].Some?))
    decreases |xs|
  {
    if xs != [] {
      var init, last := xs[..|xs| - 1], |xs| - 1;
      KeptInOrder(init);
      assert forall j :: 0 <= j < last ==> xs[j] == init[j];
      if xs[last].Some? {
        assert Kept(xs) == Kept(init) + [xs[last].value];
        assert KeptPositions(xs) == KeptPositions(init) + [last];
        assert last !in KeptPositions(init);
      } else {
        assert Kept(xs) == Kept(init);
        assert KeptPositions(xs) == KeptPositions(init);
      }
    }
  }

  /** The outcome of the loop body for each record. */
  function RecordOutcomes(rows: seq<Row>, timeCol: string): (outcomes: seq<Option<UpsertOp>>)
    ensures |outcomes| == |rows|
  {
    seq(|rows|, i requires 0 <= i < |rows| => OperationFor(rows[i], timeCol))
  }

  /** What `prepare_bulk_operations(df)` returns: the empty list when a
      required column is missing, else the operations of the records that are
      not skipped, in input order. */
  function PreparedOperations(df: Frame): (ops: seq<UpsertOp>)
    ensures |ops| <= |df.rows|
  {
    var timeCol := TimeColumn(df.columns);
    if !(RequiredColumns(timeCol) <= df.columns) then [] else Kept(RecordOutcomes(df.rows, timeCol))
  }

  /** `ops` is the operations of the eligible records, in input order,
      as picked by the positions `src`: the k-th operation is the one
      `OperationFor` builds for record `src[k]`, the positions increase
      strictly, and they are exactly the positions of the eligible records. */
  predicate SelectedInOrder(ops: seq<UpsertOp>, rows: seq<Row>, timeCol: string, src: seq<nat>) {
    && |src| == |ops|
    && (forall k :: 0 <= k < |src| ==> src[k] < |rows| && OperationFor(rows[src[k]], timeCol) == Some(ops[k]))
    && (forall k, l :: 0 <= k < l < |src| ==> src[k] < src[l])
    && (forall j :: 0 <= j < |rows| ==> (j in src <==> Eligible(rows[j], timeCol)))
  }

  /** With the required columns present, the prepared operations are those
      of the eligible records, one each, in input order. */
  lemma PreparedOperationsInOrder(df: Frame)
    requires RequiredColumns(TimeColumn(df.columns)) <= df.columns
    ensures exists src :: SelectedInOrder(PreparedOperations(df), df.rows, TimeColumn(df.columns), src)
  {
    var timeCol := TimeColumn(df.columns);
    var outcomes := RecordOutcomes(df.rows, timeCol);
    var ops := PreparedOperations(df);
    KeptInOrder(outcomes);
    var src := KeptPositions(outcomes);
    forall j | 0 <= j < |df.rows|
      ensures j in src <==> Eligible(df.rows[j], timeCol)
    {
      assert outcomes[j] == OperationFor(df.rows[j], timeCol);
    }
    forall k | 0 <= k < |src|
      ensures src[k] < |df.rows| && OperationFor(df.rows[src[k]], timeCol) == Some(ops[k])
    {
      assert outcomes[src[k]] == OperationFor(df.rows[src[k]], timeCol);
    }
    assert SelectedInOrder(ops, df.rows, timeCol, src);
  }

  /** `prepare_bulk_operations`: the loop over `df.to_dict('records')`, with
      the checks of each record made in place and `continue` on a skip. */
  method PrepareBulkOperations(df: Frame) returns (ops: seq<UpsertOp>)
    ensures ops == PreparedOperations(df)
    ensures |ops| <= |df.rows|
    ensures !(RequiredColumns(TimeColumn(df.columns)) <= df.columns) ==> ops == []
  {
    ops := [];
    var timeCol := TimeColumn(df.columns);
    if !(RequiredColumns(timeCol) <= df.columns) {
      return;
    }
    ghost var outcomes := RecordOutcomes(df.rows, timeCol);
    for i := 0 to |df.rows|
      invariant ops == Kept(outcomes[..i])
    {
      assert outcomes[..i + 1][..i] == outcomes[..i];
      var row := df.rows[i];
      if timeCol !in row || !row[timeCol].Timestamp? {
        continue;
      }
      var ts := row[timeCol].ticks;
      if "latitude" !in row || "longitude" !in row || "temperature_c" !in row
         || "wind_speed_mps" !in row || "wind_direction_deg" !in row {
        continue;
      }
      var lat, lon := row["latitude"], row["longitude"];
      var temp, speed, dir := row["temperature_c"], row["wind_speed_mps"], row["wind_direction_deg"];
      if !(IsUsableCoordinate(lat) && IsUsableCoordinate(lon)) {
        continue;
      }
      var allNan := AllWeatherNan(temp, speed, dir);
      if allNan != Some(false) {
        continue;
      }
      var temperature := RealOrNull(temp);
      var windSpeed := RealOrNull(speed);
      var windDirection := RoundedOrNull(dir);
      if temperature.None? || windSpeed.None? || windDirection.None? {
        continue;
      }
      ops := ops + [BuildOp(ts, lat.n.value, lon.n.value, temperature.value, windSpeed.value, windDirection.value)];
    }
    assert outcomes[..|df.rows|] == outcomes;
  }
}
