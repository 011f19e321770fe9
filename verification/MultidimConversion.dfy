/** mfg_event_converter.py: dimensioned measurements as attachments, and back. */
module MultidimConversion {
  import opened Prelude
  import opened Names
  import opened DimensionedValues
  import Measuring = MeasurementOutcomes

  type Outcome = Measuring.Outcome

  // ---------------------------------------------------------------- outcomes and statuses

  function OutcomeStatus(outcome: Outcome): string {
    match outcome
    case PASS => "PASS"
    case FAIL => "FAIL"
    case UNSET => "ERROR"
    case PARTIALLY_SET => "ERROR"
    case SKIPPED => "SKIPPED"
  }

  /** _measurement_outcome_to_test_run_status_name */
  function StatusName(outcome: Outcome, marginal: bool): string {
    if marginal then "MARGINAL_PASS" else OutcomeStatus(outcome)
  }

  const STATUS_OUTCOMES: map<string, Outcome> := map[
    "PASS" := Measuring.PASS, "MARGINAL_PASS" := Measuring.PASS, "FAIL" := Measuring.FAIL,
    "ERROR" := Measuring.UNSET, "SKIPPED" := Measuring.SKIPPED]

  /** The statuses of the MfgEvent protocol buffer. */
  const STATUS_NAMES: map<int, string> := map[
    1 := "PASS", 2 := "FAIL", 3 := "ERROR", 4 := "RUNNING", 5 := "CREATED", 6 := "TIMEOUT", 7 := "ABORTED",
    8 := "WAITING", 10 := "CONSUME", 11 := "RMA", 12 := "REWORK", 13 := "SCRAP", 14 := "DEBUG",
    15 := "MARGINAL_PASS", 16 := "SKIPPED"]

  /** The outcome field of the JSON data: a name, or a number in old data. */
  datatype OutcomeField = Name(name: string) | Number(n: int)

  datatype ConversionError = KeyError | TypeError | IndexError | InvalidDimensions

  /** The outcome (None for unknown numbers and text) and the marginal flag. */
  function DecodeOutcome(field: OutcomeField): Result<(Option<Outcome>, bool), ConversionError> {
    var name := match field
      case Name(s) => if s in STATUS_OUTCOMES then Some(s) else None
      case Number(n) => if n in STATUS_NAMES then Some(STATUS_NAMES[n]) else None;
    if name.None? then Ok((None, false))
    else if name.value !in STATUS_OUTCOMES then Err(KeyError)
    else Ok((Some(STATUS_OUTCOMES[name.value]), name.value == "MARGINAL_PASS"))
  }

  lemma StatusDecodes(outcome: Outcome, marginal: bool)
    ensures var r := DecodeOutcome(Name(StatusName(outcome, marginal)));
            r.Ok? && r.value.0.Some? && r.value.1 == marginal
  {
  }

  /**
    The marginal flag always survives; the outcome does exactly when it is not PARTIALLY_SET and,
    for a marginal measurement, PASS. The status read back as a number, as in old data, says the same.
   */
  lemma OutcomeSurvivesIff(outcome: Outcome, marginal: bool)
    ensures var r := DecodeOutcome(Name(StatusName(outcome, marginal)));
            && r.Ok? && r.value.0.Some? && r.value.1 == marginal
            && (r.value.0 == Some(outcome) <==>
                  if marginal then outcome == Measuring.PASS else outcome != Measuring.PARTIALLY_SET)
            && (!marginal && outcome == Measuring.PARTIALLY_SET ==> r.value.0 == Some(Measuring.UNSET))
            && DecodeOutcome(Number(StatusNumber(outcome, marginal))) == r
  {
  }

  /** The number that test_runs.proto gives to the status of a measurement. */
  function StatusNumber(outcome: Outcome, marginal: bool): int {
    if marginal then 15
    else match outcome case PASS => 1 case FAIL => 2 case UNSET => 3 case PARTIALLY_SET => 3 case SKIPPED => 16
  }

  /** What each name or number of a status is read as: the other statuses raise, and anything else is no outcome. */
  lemma DecodeIff(field: OutcomeField)
    ensures var r := DecodeOutcome(field);
            && (r == Ok((Some(Measuring.PASS), false)) <==> field in {Name("PASS"), Number(1)})
            && (r == Ok((Some(Measuring.PASS), true)) <==> field in {Name("MARGINAL_PASS"), Number(15)})
            && (r == Ok((Some(Measuring.FAIL), false)) <==> field in {Name("FAIL"), Number(2)})
            && (r == Ok((Some(Measuring.UNSET), false)) <==> field in {Name("ERROR"), Number(3)})
            && (r == Ok((Some(Measuring.SKIPPED), false)) <==> field in {Name("SKIPPED"), Number(16)})
            && (r == Err(KeyError) <==> field.Number? && (4 <= field.n <= 8 || 10 <= field.n <= 14))
            && (r.Err? ==> r == Err(KeyError)) && (r.Ok? && r.value.0 == None ==> !r.value.1)
  {
  }


  /**
    A measurement that once passed marginally and fails later is reported as MARGINAL_PASS, and
    comes back as PASS.
   */
  lemma FailureReportedAsPass(d: Measuring.Declaration, a: Value, b: Value)
    requires !d.dimensioned && d.transform.None? && d.convert(a).Some? && d.convert(b).Some?
    requires Measuring.VerdictOn(d.validators, a).marginal &&
             Measuring.VerdictOn(d.validators, b).outcome == Measuring.FAIL
    ensures var last := Measuring.Run(d, Measuring.FRESH, [Measuring.Set(a), Measuring.Set(b)]);
            && last.outcome == Measuring.FAIL && StatusName(last.outcome, last.marginal) == "MARGINAL_PASS"
            && DecodeOutcome(Name(StatusName(last.outcome, last.marginal))) == Ok((Some(Measuring.PASS), true))
  {
    Measuring.MarginalSurvivesFailure(d, a, b);
  }

  // ---------------------------------------------------------------- dimensions and units

  datatype Unit = Unit(name: string, code: Option<string>, suffix: Option<string>)

  const NO_UNIT: Unit := Unit("None", None, None)

  datatype Dimension = Dimension(description: string, unit: Unit)
  {
    function Name(): string {
      if description != "" then description else unit.name
    }
  }

  datatype DimensionJson = DimensionJson(suffix: string, code: Option<string>, name: string)

  function DimensionToJson(d: Dimension): DimensionJson {
    DimensionJson(if d.unit.suffix.None? then "" else d.unit.suffix.value, d.unit.code, d.Name())
  }

  /** The table's unit for a code, or no unit. */
  function UnitOf(table: map<string, Unit>, code: Option<string>): Unit {
    if code.Some? && code.value in table then table[code.value] else NO_UNIT
  }

  function DimensionFromJson(table: map<string, Unit>, j: DimensionJson): Dimension {
    Dimension(j.name, UnitOf(table, j.code))
  }

  /** The table answers the unit itself for its code. */
  predicate Known(table: map<string, Unit>, u: Unit) {
    if u.code.Some? && u.code.value in table then table[u.code.value] == u else u == NO_UNIT
  }

  /** A dimension comes back as it was if and only if it has a description and a unit of the table. */
  lemma DimensionSurvivesIff(table: map<string, Unit>, d: Dimension)
    ensures var r := DimensionFromJson(table, DimensionToJson(d));
            && (r == d <==> Known(table, d.unit) && (d.description != "" || d.unit.name == ""))
            && (d.Name() != "" ==> r.Name() == d.Name())
            && (Known(table, d.unit) ==> r.unit == d.unit && r.Name() == d.Name())
  {
  }

  /** Two dimensions look the same in the attachment exactly if name, code and suffix do; no suffix is an empty one. */
  lemma SameJsonIff(d: Dimension, e: Dimension)
    ensures DimensionToJson(d) == DimensionToJson(e) <==>
            && d.Name() == e.Name() && d.unit.code == e.unit.code
            && (d.unit.suffix == e.unit.suffix || {d.unit.suffix, e.unit.suffix} == {None, Some("")})
  {
    assert {d.unit.suffix, e.unit.suffix} == {None, Some("")} ==>
             None in {d.unit.suffix, e.unit.suffix} && Some("") in {d.unit.suffix, e.unit.suffix};
    if d.unit.suffix == None && e.unit.suffix == Some("") {
      assert {d.unit.suffix, e.unit.suffix} == {None, Some("")};
    }
  }

  // ---------------------------------------------------------------- sorting rows

  predicate Scalar(v: Value) {
    v.Num? || v.Text? || v.NoValue?
  }

  predicate Leq(a: Value, b: Value) {
    match (a, b)
    case (Num(m), Num(n)) => m <= n
    case (Text(s), Text(t)) => !Less(t, s)
    case _ => false
  }

  function InsertRow(rows: seq<Row>, row: Row): seq<Row>
    requires row != [] && forall i :: 0 <= i < |rows| ==> rows[i] != []
  {
    if rows == [] then [row]
    else
      var n := |rows| - 1;
      if Leq(rows[n][0], row[0]) then rows + [row] else InsertRow(rows[..n], row) + [rows[n]]
  }

  /** The rows sorted by first coordinate, for comparable ones: equal coordinates stay in order. */
  function SortedRows(rows: seq<Row>): (r: seq<Row>)
    requires forall i :: 0 <= i < |rows| ==> rows[i] != []
    ensures multiset(r) == multiset(rows)
  {
    if rows == [] then []
    else
      var n := |rows| - 1;
      var front := SortedRows(rows[..n]);
      assert rows == rows[..n] + [rows[n]];
      MembersNonEmpty(rows[..n], front);
      InsertRowMembers(front, rows[n]);
      InsertRow(front, rows[n])
  }

  lemma MembersNonEmpty(rows: seq<Row>, r: seq<Row>)
    requires multiset(rows) == multiset(r) && forall i :: 0 <= i < |rows| ==> rows[i] != []
    ensures forall i :: 0 <= i < |r| ==> r[i] != [] && r[i] in rows
  {
    forall i | 0 <= i < |r| ensures r[i] != [] && r[i] in rows {
      assert r[i] in multiset(r);
    }
  }

  lemma {:induction false} InsertRowMembers(rows: seq<Row>, row: Row)
    requires row != [] && forall i :: 0 <= i < |rows| ==> rows[i] != []
    ensures multiset(InsertRow(rows, row)) == multiset(rows) + multiset{row}
    decreases |rows|
  {
    if rows != [] {
      var n := |rows| - 1;
      assert rows == rows[..n] + [rows[n]];
      InsertRowMembers(rows[..n], row);
    }
  }

  predicate OfKind(v: Value, text: bool) {
    if text then v.Text? else v.Num?
  }

  /** Every row starts with a text, or every row with a number: sorted() raises a TypeError otherwise. */
  predicate FirstsOfKind(rows: seq<Row>, text: bool) {
    forall i :: 0 <= i < |rows| ==> rows[i] != [] && OfKind(rows[i][0], text)
  }

  ghost predicate Ascending(rows: seq<Row>)
    requires forall i :: 0 <= i < |rows| ==> rows[i] != []
  {
    forall i, j :: 0 <= i < j < |rows| ==> Leq(rows[i][0], rows[j][0])
  }

  /** The rows with a given first coordinate, in order. */
  function WithFirst(rows: seq<Row>, key: Value): seq<Row>
    requires forall i :: 0 <= i < |rows| ==> rows[i] != []
  {
    if rows == [] then []
    else
      var n := |rows| - 1;
      WithFirst(rows[..n], key) + (if rows[n][0] == key then [rows[n]] else [])
  }

  lemma LeqOrder(a: Value, b: Value, c: Value, text: bool)
    requires OfKind(a, text) && OfKind(b, text) && OfKind(c, text)
    ensures Leq(a, b) || Leq(b, a)
    ensures Leq(a, b) && Leq(b, c) ==> Leq(a, c)
    ensures Leq(a, b) && Leq(b, a) ==> a == b
  {
    if text {
      LessTrichotomy(a.s, b.s);
      LessTrichotomy(b.s, c.s);
      LessTrichotomy(a.s, c.s);
      if Less(a.s, b.s) && Less(b.s, c.s) {
        LessTransitive(a.s, b.s, c.s);
      }
    }
  }

  lemma {:induction false} InsertRowSorts(rows: seq<Row>, row: Row, key: Value, text: bool)
    requires FirstsOfKind(rows, text) && Ascending(rows) && row != [] && OfKind(row[0], text)
    ensures var r := InsertRow(rows, row);
            && FirstsOfKind(r, text) && Ascending(r) && multiset(r) == multiset(rows) + multiset{row}
            && WithFirst(r, key) == WithFirst(rows, key) + (if row[0] == key then [row] else [])
    decreases |rows|
  {
    InsertRowMembers(rows, row);
    if rows != [] {
      var n := |rows| - 1;
      var last := rows[n];
      LeqOrder(last[0], row[0], row[0], text);
      if Leq(last[0], row[0]) {
        RowGoesLast(rows, row, key, text);
      } else {
        InsertRowSorts(rows[..n], row, key, text);
        LastStaysLast(rows, row, key, text, InsertRow(rows[..n], row));
      }
    }
  }

  lemma RowGoesLast(rows: seq<Row>, row: Row, key: Value, text: bool)
    requires rows != [] && FirstsOfKind(rows, text) && Ascending(rows) && row != [] && OfKind(row[0], text)
    requires Leq(rows[|rows| - 1][0], row[0])
    ensures var r := rows + [row];
            && FirstsOfKind(r, text) && Ascending(r)
            && WithFirst(r, key) == WithFirst(rows, key) + (if row[0] == key then [row] else [])
  {
    var last := rows[|rows| - 1];
    forall i | 0 <= i < |rows| ensures Leq(rows[i][0], row[0]) {
      LeqOrder(rows[i][0], last[0], row[0], text);
    }
    assert (rows + [row])[..|rows|] == rows;
  }

  lemma LastStaysLast(rows: seq<Row>, row: Row, key: Value, text: bool, front: seq<Row>)
    requires rows != [] && FirstsOfKind(rows, text) && Ascending(rows) && FirstsOfKind(front, text) && Ascending(front)
    requires row != [] && OfKind(row[0], text) && Leq(row[0], rows[|rows| - 1][0]) && row[0] != rows[|rows| - 1][0]
    requires multiset(front) == multiset(rows[..|rows| - 1]) + multiset{row}
    requires WithFirst(front, key) == WithFirst(rows[..|rows| - 1], key) + (if row[0] == key then [row] else [])
    ensures var r := front + [rows[|rows| - 1]];
            && FirstsOfKind(r, text) && Ascending(r)
            && WithFirst(r, key) == WithFirst(rows, key) + (if row[0] == key then [row] else [])
  {
    var n := |rows| - 1;
    var r := front + [rows[n]];
    forall i | 0 <= i < |front| ensures Leq(front[i][0], rows[n][0]) {
      assert front[i] in multiset(front);
      if front[i] != row {
        assert front[i] in rows[..n];
        var j :| 0 <= j < n && rows[j] == front[i];
      }
    }
    assert r[..|front|] == front;
  }

  /** Sorting answers the same rows in ascending order of the first coordinate, ties in their old order. */
  lemma {:induction false} SortedRowsStable(rows: seq<Row>, key: Value, text: bool)
    requires FirstsOfKind(rows, text)
    ensures FirstsOfKind(SortedRows(rows), text) && Ascending(SortedRows(rows))
    ensures WithFirst(SortedRows(rows), key) == WithFirst(rows, key)
    decreases |rows|
  {
    if rows != [] {
      var n := |rows| - 1;
      SortedRowsStable(rows[..n], key, text);
      InsertRowSorts(SortedRows(rows[..n]), rows[n], key, text);
    }
  }

  // ---------------------------------------------------------------- the conversions

  /** A dimensioned measurement; the outcome is None only after the conversion of unknown data. */
  datatype Multidim = Multidim(
    name: string, units: Option<Unit>, dimensions: seq<Dimension>, entries: Dict, outcome: Option<Outcome>,
    marginal: bool)

  /** The JSON data of an attachment; a row that is read back is the list of its elements. */
  datatype AttachmentData = AttachmentData(
    outcome: OutcomeField, name: string, dimensions: seq<DimensionJson>, value: Option<seq<Row>>)

  function DimensionsToJson(ds: seq<Dimension>): seq<DimensionJson> {
    seq(|ds|, i requires 0 <= i < |ds| => DimensionToJson(ds[i]))
  }

  function DimensionsFromJson(table: map<string, Unit>, js: seq<DimensionJson>): seq<Dimension> {
    seq(|js|, i requires 0 <= i < |js| => DimensionFromJson(table, js[i]))
  }

  /** The units go behind the dimensions. */
  function AllDimensions(m: Multidim): seq<Dimension> {
    m.dimensions + (if m.units.Some? then [Dimension("", m.units.value)] else [])
  }

  lemma {:induction false} RowsNonEmpty(d: Dict)
    requires RowsOf(d).Some?
    ensures forall i :: 0 <= i < |RowsOf(d).value| ==> RowsOf(d).value[i] != []
    decreases |d|
  {
    RowsOfTuples(d);
  }

  function SortedValue(d: Dict): Result<seq<Row>, ConversionError> {
    var rows := RowsOf(d);
    if rows.None? then Err(ConversionError.TypeError)
    else
      RowsNonEmpty(d);
      if |rows.value| <= 1 || FirstsOfKind(rows.value, true) || FirstsOfKind(rows.value, false)
      then Ok(SortedRows(rows.value))
      else Err(ConversionError.TypeError)
  }

  function ToAttachment(name: string, m: Multidim): Result<AttachmentData, ConversionError> {
    var value := SortedValue(m.entries);
    if m.entries != [] && value.Err? then Err(value.error)
    else if m.outcome.None? && !m.marginal then Err(KeyError)
    else
      var status := if m.marginal then "MARGINAL_PASS" else OutcomeStatus(m.outcome.value);
      Ok(AttachmentData(Name(status), name, DimensionsToJson(AllDimensions(m)),
                        if m.entries == [] then None else Some(value.value)))
  }

  function PlainConfig(n: nat): Config {
    Config(n, None, (row: Row) => row)
  }

  /** Sets the last element of each row under the others as coordinates, up to the first error. */
  function SetRows(c: Config, rows: seq<Row>): Result<State, ConversionError> {
    if rows == [] then Ok(State([], Some([])))
    else
      var n := |rows| - 1;
      match SetRows(c, rows[..n])
      case Err(e) => Err(e)
      case Ok(s) =>
        if rows[n] == [] then Err(IndexError)
        else
          var k := |rows[n]| - 1;
          var (next, error) := SetItemSpec(c, s, Tuple(rows[n][..k]), rows[n][k]);
          if error == None then Ok(next) else Err(ConversionError.InvalidDimensions)
  }

  /** Units are there if and only if a row is as long as the list of dimensions. */
  function HasUnits(value: Option<seq<Row>>, n: nat): bool {
    value.Some? && value.value != [] && n == |value.value[0]|
  }

  /** The units and the other dimensions; None is the IndexError of dims[-1]. */
  function SplitUnits(ds: seq<Dimension>, value: Option<seq<Row>>): Option<(Option<Unit>, seq<Dimension>)> {
    if !HasUnits(value, |ds|) then Some((None, ds))
    else if ds == [] then None
    else Some((Some(ds[|ds| - 1].unit), ds[..|ds| - 1]))
  }

  function FromAttachment(table: map<string, Unit>, data: AttachmentData): Result<Multidim, ConversionError> {
    var decoded := DecodeOutcome(data.outcome);
    var split := SplitUnits(DimensionsFromJson(table, data.dimensions), data.value);
    if decoded.Err? then Err(decoded.error)
    else if split.None? then Err(IndexError)
    else if data.value.None? then Err(ConversionError.TypeError)
    else
      var (units, dimensions) := split.value;
      match SetRows(PlainConfig(|dimensions|), data.value.value)
      case Err(e) => Err(e)
      case Ok(s) => Ok(Multidim(data.name, units, dimensions, s.dict, decoded.value.0, decoded.value.1))
  }

  method ListDimensions(m: Multidim) returns (dims: seq<DimensionJson>)
    ensures dims == DimensionsToJson(AllDimensions(m))
  {
    var dimensions := m.dimensions;
    if m.units.Some? { dimensions := dimensions + [Dimension("", m.units.value)]; }
    assert dimensions == AllDimensions(m);
    dims := [];
    for i := 0 to |dimensions|
      invariant dims == DimensionsToJson(dimensions[..i])
    {
      dims := dims + [DimensionToJson(dimensions[i])];
    }
    assert dimensions[..|dimensions|] == dimensions;
  }

  method MultidimToAttachment(name: string, m: Multidim) returns (r: Result<AttachmentData, ConversionError>)
    ensures r == ToAttachment(name, m)
  {
    var dims := ListDimensions(m);
    var value: Option<seq<Row>> := None;
    if m.entries != [] {
      match SortedValue(m.entries) {
        case Err(e) => return Err(e);
        case Ok(rows) => value := Some(rows);
      }
    }
    if m.outcome.None? && !m.marginal { return Err(KeyError); }
    var status := if m.marginal then "MARGINAL_PASS" else OutcomeStatus(m.outcome.value);
    return Ok(AttachmentData(Name(status), name, dims, value));
  }

  method AttachmentToMultidim(table: map<string, Unit>, data: AttachmentData)
    returns (r: Result<Multidim, ConversionError>)
    ensures r == FromAttachment(table, data)
  {
    var decoded := DecodeOutcome(data.outcome);
    if decoded.Err? { return Err(decoded.error); }
    var dims: seq<Dimension> := [];
    for i := 0 to |data.dimensions|
      invariant dims == DimensionsFromJson(table, data.dimensions[..i])
    {
      dims := dims + [DimensionFromJson(table, data.dimensions[i])];
    }
    assert data.dimensions[..|data.dimensions|] == data.dimensions;
    var units: Option<Unit>, dimensions := None, dims;
    if data.value.Some? && data.value.value != [] && |dims| == |data.value.value[0]| {
      if dims == [] { return Err(IndexError); }
      units, dimensions := Some(dims[|dims| - 1].unit), dims[..|dims| - 1];
    }
    if data.value.None? { return Err(ConversionError.TypeError); }
    var entries := StoreRows(|dimensions|, data.value.value);
    if entries.Err? { return Err(entries.error); }
    return Ok(Multidim(data.name, units, dimensions, entries.value, decoded.value.0, decoded.value.1));
  }

  /** The loop that populates the measured value. */
  method StoreRows(n: nat, rows: seq<Row>) returns (r: Result<Dict, ConversionError>)
    ensures r == match SetRows(PlainConfig(n), rows) case Err(e) => Err(e) case Ok(s) => Ok(s.dict)
  {
    ghost var c := PlainConfig(n);
    var measuredValue := new DimensionedMeasuredValue(PlainConfig(n));
    for i := 0 to |rows|
      invariant measuredValue.config == c && SetRows(c, rows[..i]) == Ok(measuredValue.Contents())
    {
      TakeOneMore(rows, i);
      if rows[i] == [] {
        SetRowsFails(c, rows, i + 1);
        return Err(IndexError);
      }
      var k := |rows[i]| - 1;
      var error := measuredValue.SetItem(Tuple(rows[i][..k]), rows[i][k]);
      if error != None {
        SetRowsFails(c, rows, i + 1);
        return Err(ConversionError.InvalidDimensions);
      }
    }
    assert rows[..|rows|] == rows;
    return Ok(measuredValue.valueDict);
  }

  lemma TakeOneMore(rows: seq<Row>, i: nat)
    requires i < |rows|
    ensures rows[..i + 1][..i] == rows[..i] && rows[..i + 1][i] == rows[i]
  {
  }

  lemma {:induction false} SetRowsFails(c: Config, rows: seq<Row>, i: nat)
    requires i <= |rows| && SetRows(c, rows[..i]).Err?
    ensures SetRows(c, rows) == SetRows(c, rows[..i])
    decreases |rows|
  {
    if i < |rows| {
      var n := |rows| - 1;
      assert rows[..n][..i] == rows[..i];
      SetRowsFails(c, rows[..n], i);
    } else {
      assert rows[..i] == rows;
    }
  }

  // ---------------------------------------------------------------- the round trip

  /** Entries as __setitem__ makes them for scalar coordinates and values. */
  ghost predicate ScalarEntries(d: Dict, n: nat) {
    && DistinctKeys(d)
    && forall i :: 0 <= i < |d| ==>
        && Scalar(d[i].1) && d[i].0.Tuple? && |d[i].0.elements| == n
        && forall k :: 0 <= k < n ==> Scalar(d[i].0.elements[k])
  }

  ghost predicate ScalarRow(row: Row, n: nat) {
    |row| == n + 1 && forall k :: 0 <= k <= n ==> Scalar(row[k])
  }

  ghost predicate DistinctCoordinates(rows: seq<Row>, n: nat) {
    && (forall i :: 0 <= i < |rows| ==> ScalarRow(rows[i], n))
    && forall i, j :: 0 <= i < j < |rows| ==> rows[i][..n] != rows[j][..n]
  }

  lemma EntriesToRows(d: Dict, n: nat)
    requires ScalarEntries(d, n)
    ensures RowsOf(d).Some? && |RowsOf(d).value| == |d| && DistinctCoordinates(RowsOf(d).value, n)
  {
    RowsOfTuples(d);
    var rows := RowsOf(d).value;
    forall i | 0 <= i < |d| ensures ScalarRow(rows[i], n) && rows[i][..n] == d[i].0.elements {
    }
  }

  lemma {:induction false} RepeatedMember<T>(s: seq<T>, i: nat, j: nat)
    requires i < j < |s| && s[i] == s[j]
    ensures multiset(s)[s[i]] >= 2
  {
    assert s == s[..j] + [s[j]] + s[j + 1..];
    assert s[..j][i] == s[i];
  }

  lemma {:induction false} DistinctOnce<T>(s: seq<T>, x: T)
    requires forall i, j :: 0 <= i < j < |s| ==> s[i] != s[j]
    ensures multiset(s)[x] <= 1
    decreases |s|
  {
    if s != [] {
      var n := |s| - 1;
      assert s == s[..n] + [s[n]];
      DistinctOnce(s[..n], x);
      assert s[n] !in s[..n];
    }
  }

  /** Sorting leaves the coordinates distinct. */
  lemma SortedCoordinates(rows: seq<Row>, r: seq<Row>, n: nat)
    requires DistinctCoordinates(rows, n) && multiset(rows) == multiset(r)
    ensures DistinctCoordinates(r, n)
  {
    forall i | 0 <= i < |r| ensures r[i] in rows {
      assert r[i] in multiset(r);
    }
    forall i, j | 0 <= i < j < |r| ensures r[i][..n] != r[j][..n] {
      if r[i] == r[j] {
        RepeatedMember(r, i, j);
        DistinctOnce(rows, r[i]);
      } else {
        var k :| 0 <= k < |rows| && rows[k] == r[i];
        var l :| 0 <= l < |rows| && rows[l] == r[j];
      }
    }
  }

  function Entries(c: Config, rows: seq<Row>): Dict
    requires forall i :: 0 <= i < |rows| ==> rows[i] != []
  {
    seq(|rows|, i requires 0 <= i < |rows| => (KeyOf(c, Tuple(rows[i][..|rows[i]| - 1])), rows[i][|rows[i]| - 1]))
  }

  lemma SetItemStores(c: Config, s: State, coordinates: Value, v: Value)
    requires c.transform.None? && coordinates.Tuple? && |coordinates.elements| == c.numDimensions
    requires forall i :: 0 <= i < |coordinates.elements| ==> Scalar(coordinates.elements[i])
    requires s.cache.Some? && !HasKey(s.dict, KeyOf(c, coordinates))
    ensures var (next, error) := SetItemSpec(c, s, coordinates, v);
            error == None && next.cache.Some? && next.dict == s.dict + [(KeyOf(c, coordinates), v)]
  {
    assert Hashable(coordinates) && Hashable(KeyOf(c, coordinates));
    StoreNew(s.dict, KeyOf(c, coordinates), v);
  }

  lemma NewCoordinates(c: Config, rows: seq<Row>)
    requires rows != [] && DistinctCoordinates(rows, c.numDimensions)
    ensures var n, d := |rows| - 1, c.numDimensions;
            DistinctCoordinates(rows[..n], d) && !HasKey(Entries(c, rows[..n]), KeyOf(c, Tuple(rows[n][..d])))
  {
    var n, d := |rows| - 1, c.numDimensions;
    var dict, key := Entries(c, rows[..n]), KeyOf(c, Tuple(rows[n][..d]));
    HasKeyIff(dict, key);
    forall i | 0 <= i < n ensures dict[i].0 != key {
      assert rows[i][..d] != rows[n][..d] && ScalarRow(rows[i], d);
    }
  }

  lemma EntriesGrow(c: Config, rows: seq<Row>)
    requires rows != [] && forall i :: 0 <= i < |rows| ==> ScalarRow(rows[i], c.numDimensions)
    ensures var n, d := |rows| - 1, c.numDimensions;
            && (forall i :: 0 <= i < n ==> rows[i] != []) && ScalarRow(rows[n], d)
            && Entries(c, rows) == Entries(c, rows[..n]) + [(KeyOf(c, Tuple(rows[n][..d])), rows[n][d])]
  {
  }

  lemma {:induction false} SetRowsStores(c: Config, rows: seq<Row>)
    requires c.transform.None? && DistinctCoordinates(rows, c.numDimensions)
    ensures SetRows(c, rows).Ok? && SetRows(c, rows).value.cache.Some? &&
            SetRows(c, rows).value.dict == Entries(c, rows)
    decreases |rows|
  {
    if rows != [] {
      var n, d := |rows| - 1, c.numDimensions;
      NewCoordinates(c, rows);
      EntriesGrow(c, rows);
      SetRowsStores(c, rows[..n]);
      SetItemStores(c, SetRows(c, rows[..n]).value, Tuple(rows[n][..d]), rows[n][d]);
    }
  }

  /** What the rows read back: a single coordinate is wrapped once more. */
  function ReadBack(n: nat, row: Row): Row
    requires |row| == n + 1
  {
    if n == 1 then [Tuple([row[0]]), row[1]] else row
  }

  ghost predicate RowsReadBack(d: Dict, n: nat, rows: seq<Row>) {
    && RowsOf(d).Some? && |RowsOf(d).value| == |rows|
    && forall i :: 0 <= i < |rows| ==> |rows[i]| == n + 1 && RowsOf(d).value[i] == ReadBack(n, rows[i])
  }

  lemma StoredRows(c: Config, rows: seq<Row>)
    requires DistinctCoordinates(rows, c.numDimensions)
    ensures RowsReadBack(Entries(c, rows), c.numDimensions, rows)
  {
    var d, n := Entries(c, rows), c.numDimensions;
    RowsOfTuples(d);
    forall i | 0 <= i < |rows|
      ensures |rows[i]| == n + 1 && d[i].0.Tuple? && d[i].0.elements + [d[i].1] == ReadBack(n, rows[i])
    {
      assert ScalarRow(rows[i], n);
      if n == 1 { assert rows[i][..1] == [rows[i][0]]; }
    }
  }

  /** Sorting the rows succeeds. */
  predicate Sortable(d: Dict)
    requires RowsOf(d).Some?
  {
    var rows := RowsOf(d).value;
    |rows| <= 1 || FirstsOfKind(rows, true) || FirstsOfKind(rows, false)
  }

  /** What the conversion of a measurement with sorted rows is. */
  function DataOf(name: string, m: Multidim, rows: seq<Row>): AttachmentData
    requires m.outcome.Some?
  {
    AttachmentData(Name(StatusName(m.outcome.value, m.marginal)), name, DimensionsToJson(AllDimensions(m)), Some(rows))
  }

  lemma ForwardIff(name: string, m: Multidim, rows: seq<Row>)
    requires m.outcome.Some? && RowsOf(m.entries) == Some(rows) && forall i :: 0 <= i < |rows| ==> rows[i] != []
    ensures m.entries != [] ==> (ToAttachment(name, m).Ok? <==> Sortable(m.entries))
    ensures m.entries == [] ==> ToAttachment(name, m).Ok? && ToAttachment(name, m).value.value == None
    ensures m.entries != [] && Sortable(m.entries) ==> ToAttachment(name, m) == Ok(DataOf(name, m, SortedRows(rows)))
  {
  }

  lemma BackDimensions(table: map<string, Unit>, m: Multidim)
    ensures var ds, n := DimensionsFromJson(table, DimensionsToJson(AllDimensions(m))), |m.dimensions|;
            && |ds| == (if m.units.Some? then n + 1 else n)
            && ds[..n] == DimensionsFromJson(table, DimensionsToJson(m.dimensions))
            && (m.units.Some? ==> ds[n].unit == UnitOf(table, m.units.value.code))
  {
  }

  /** The measurement that comes back, for sorted rows. */
  function BackFrom(table: map<string, Unit>, name: string, m: Multidim, rows: seq<Row>): Multidim
    requires m.outcome.Some? && forall i :: 0 <= i < |rows| ==> rows[i] != []
  {
    var n := |m.dimensions|;
    var outcome := DecodeOutcome(Name(StatusName(m.outcome.value, m.marginal))).value.0;
    Multidim(name, if m.units.None? then None else Some(UnitOf(table, m.units.value.code)),
             DimensionsFromJson(table, DimensionsToJson(m.dimensions)), Entries(PlainConfig(n), rows),
             outcome, m.marginal)
  }

  lemma BackIs(table: map<string, Unit>, name: string, m: Multidim, rows: seq<Row>)
    requires m.outcome.Some? && m.dimensions != [] && rows != [] && DistinctCoordinates(rows, |m.dimensions|)
    ensures FromAttachment(table, DataOf(name, m, rows)) == Ok(BackFrom(table, name, m, rows))
  {
    var n := |m.dimensions|;
    BackDimensions(table, m);
    StatusDecodes(m.outcome.value, m.marginal);
    SetRowsStores(PlainConfig(n), rows);
    assert ScalarRow(rows[0], n);
    var ds := DimensionsFromJson(table, DimensionsToJson(AllDimensions(m)));
    assert m.units.None? ==> ds[..n] == ds;
  }

  /**
    A measurement with scalar coordinates and values makes it to an attachment and back if and only
    if a value is set and its rows can be sorted. Then the rows are those of before, stably sorted
    by first coordinate (with one dimension, each coordinate wrapped once more), the right dimensions
    are told from the units, and each dimension and unit is looked up by its code.
   */
  lemma RoundTrip(table: map<string, Unit>, name: string, m: Multidim)
    requires m.outcome.Some? && m.dimensions != [] && ScalarEntries(m.entries, |m.dimensions|)
    ensures RowsOf(m.entries).Some?
    ensures var there := ToAttachment(name, m);
            (there.Ok? && FromAttachment(table, there.value).Ok?) <==> (m.entries != [] && Sortable(m.entries))
    ensures m.entries != [] && Sortable(m.entries) ==>
              var there := ToAttachment(name, m);
              there.Ok? && CameBack(table, name, m, FromAttachment(table, there.value))
  {
    EntriesToRows(m.entries, |m.dimensions|);
    var rows := RowsOf(m.entries).value;
    assert forall i :: 0 <= i < |rows| ==> ScalarRow(rows[i], |m.dimensions|);
    ForwardIff(name, m, rows);
    if m.entries == [] {
      StatusDecodes(m.outcome.value, m.marginal);
    } else if Sortable(m.entries) {
      SortedComesBack(table, name, m, rows);
    }
  }

  lemma SortedComesBack(table: map<string, Unit>, name: string, m: Multidim, rows: seq<Row>)
    requires m.outcome.Some? && m.dimensions != [] && RowsOf(m.entries) == Some(rows)
    requires rows != [] && Sortable(m.entries) && DistinctCoordinates(rows, |m.dimensions|)
    requires forall i :: 0 <= i < |rows| ==> rows[i] != []
    ensures CameBack(table, name, m, FromAttachment(table, DataOf(name, m, SortedRows(rows))))
  {
    var n, sorted := |m.dimensions|, SortedRows(rows);
    SortedCoordinates(rows, sorted, n);
    assert |multiset(sorted)| == |multiset(rows)|;
    BackIs(table, name, m, sorted);
    StoredRows(PlainConfig(n), sorted);
    StatusDecodes(m.outcome.value, m.marginal);
    assert SortedValue(m.entries) == Ok(sorted);
  }

  ghost predicate CameBack(table: map<string, Unit>, name: string, m: Multidim, r: Result<Multidim, ConversionError>)
    requires m.outcome.Some?
  {
    && r.Ok? && SortedValue(m.entries).Ok?
    && RowsReadBack(r.value.entries, |m.dimensions|, SortedValue(m.entries).value)
    && r.value.dimensions == DimensionsFromJson(table, DimensionsToJson(m.dimensions))
    && r.value.units == (if m.units.None? then None else Some(UnitOf(table, m.units.value.code)))
    && r.value.name == name
    && Ok((r.value.outcome, r.value.marginal)) == DecodeOutcome(Name(StatusName(m.outcome.value, m.marginal)))
  }

  /** The rows come back unchanged, up to the sorting, if and only if there is more than one dimension. */
  lemma RowsSurviveIff(d: Dict, n: nat, rows: seq<Row>)
    requires n > 0 && rows != [] && (forall i :: 0 <= i < |rows| ==> ScalarRow(rows[i], n)) && RowsReadBack(d, n, rows)
    ensures RowsOf(d) == Some(rows) <==> n != 1
  {
    assert ScalarRow(rows[0], n) && RowsOf(d).value[0] == ReadBack(n, rows[0]);
    if n == 1 {
      assert RowsOf(d).value[0][0] != rows[0][0];
    } else {
      var back := RowsOf(d).value;
      forall i | 0 <= i < |rows| ensures back[i] == rows[i] { assert ScalarRow(rows[i], n); }
      assert back == rows;
    }
  }
}
