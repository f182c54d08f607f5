/**
 * The telemetry read endpoints: the time range a history or CSV request
 * selects, the down-sampling of history results, the empty-list fallback of
 * the log-dates endpoint, and the shaping of the CSV export (file name,
 * column selection, header, rows). The database, the clock, date and
 * duration parsing and float formatting are inputs.
 */
module TelemetryApi {
  import opened Wrappers
  import opened Text
  import opened Decimal

  const StatusBadRequest: int := 400
  const StatusInternalServerError: int := 500

  /** History results above this many records are down-sampled. */
  const MaxPoints: nat := 2000
  const DaySeconds: int := 86400
  /** The default window: the last 12 hours. */
  const DefaultWindowSeconds: int := 43200

  datatype HttpError = HttpError(status: int, message: string)

  /** The range parameters of a request; a missing parameter reads as "". */
  datatype RangeQuery = RangeQuery(start: string, end: string, date: string, duration: string)

  datatype TimeRange = TimeRange(start: int, end: int)

  /** time.Parse("2006-01-02", _) as Unix seconds of that midnight (UTC), and
      time.ParseDuration as whole seconds; None when the text does not parse. */
  datatype TimeParsers = TimeParsers(parseDate: string -> Option<int>, parseDuration: string -> Option<int>)

  /** A JSON array as encoded from a Go slice: a nil slice encodes as null. */
  datatype JsonArray<T> = Null | Array(items: seq<T>)

  /** The range a history request selects: explicit start and end first,
      then a calendar date (24 hours), then a duration back from now, then
      the last 12 hours. */
  function HistoryRange(q: RangeQuery, now: int, p: TimeParsers): (r: Result<TimeRange, HttpError>)
    ensures r.Err? ==> r.error.status == StatusBadRequest
    ensures r.Ok? && !(q.start != "" && q.end != "") && q.date != "" ==> r.value.end - r.value.start == DaySeconds
    ensures q.start == "" && q.date == "" && q.duration == "" ==> r == Ok(TimeRange(now - DefaultWindowSeconds, now))
    ensures !(q.start != "" && q.end != "") && q.date == "" ==>
              r == Ok(TimeRange(now - (if q.duration != "" && p.parseDuration(q.duration).Some?
                                       then p.parseDuration(q.duration).value
                                       else DefaultWindowSeconds), now))
  {
    if q.start != "" && q.end != "" then
      var s, e := ParseInt(q.start), ParseInt(q.end);
      if s.Some? && e.Some? then Ok(TimeRange(s.value, e.value))
      else Err(HttpError(StatusBadRequest, "Invalid timestamp"))
    else if q.date != "" then
      match p.parseDate(q.date)
      case None => Err(HttpError(StatusBadRequest, "Invalid date format"))
      case Some(t) => Ok(TimeRange(t, t + DaySeconds))
    else if q.duration != "" then
      match p.parseDuration(q.duration)
      case Some(d) => Ok(TimeRange(now - d, now))
      case None => Ok(TimeRange(now - DefaultWindowSeconds, now))
    else
      Ok(TimeRange(now - DefaultWindowSeconds, now))
  }

  /** Where a CSV export reads from and what the file is called. */
  datatype CsvTarget = CsvTarget(range: TimeRange, filename: string)

  /** The range and file name of a CSV export: explicit start and end, or a
      calendar date; without either the request is rejected. */
  function CsvRange(q: RangeQuery, parseDate: string -> Option<int>): (r: Result<CsvTarget, HttpError>)
    ensures r.Err? ==> r.error.status == StatusBadRequest
    ensures r.Ok? ==> |r.value.filename| >= 14
                      && r.value.filename[..10] == "telemetry_"
                      && r.value.filename[|r.value.filename| - 4..] == ".csv"
  {
    if q.start != "" && q.end != "" then
      var s, e := ParseInt(q.start), ParseInt(q.end);
      if s.Some? && e.Some? then
        Ok(CsvTarget(TimeRange(s.value, e.value),
                     "telemetry_" + IntToString(s.value) + "_" + IntToString(e.value) + ".csv"))
      else Err(HttpError(StatusBadRequest, "Invalid timestamp"))
    else if q.date != "" then
      match parseDate(q.date)
      case None => Err(HttpError(StatusBadRequest, "Invalid date"))
      case Some(t) => Ok(CsvTarget(TimeRange(t, t + DaySeconds), "telemetry_" + q.date + ".csv"))
    else
      Err(HttpError(StatusBadRequest, "Missing range parameters"))
  }

  /** Precedence: once start and end are both given, date and duration are
      ignored; once a date is given (without both start and end), the
      duration is ignored; without both start and end and without a date, a
      parsable duration reaches back from now, and anything else (no
      duration, an unparsable one, or only one of start and end) falls back
      to the last 12 hours. */
  lemma HistoryRangePrecedence(q: RangeQuery, now: int, p: TimeParsers, date: string, duration: string)
    ensures q.start != "" && q.end != "" ==>
              HistoryRange(q, now, p) == HistoryRange(q.(date := date, duration := duration), now, p)
    ensures !(q.start != "" && q.end != "") && q.date != "" ==>
              HistoryRange(q, now, p) == HistoryRange(q.(duration := duration), now, p)
    ensures !(q.start != "" && q.end != "") && q.date == "" && q.duration != "" && p.parseDuration(q.duration).Some? ==>
              HistoryRange(q, now, p) == Ok(TimeRange(now - p.parseDuration(q.duration).value, now))
    ensures !(q.start != "" && q.end != "") && q.date == "" && (q.duration == "" || p.parseDuration(q.duration).None?) ==>
              HistoryRange(q, now, p) == Ok(TimeRange(now - DefaultWindowSeconds, now))
  {
  }

  /** A history request fails only for an unparsable start/end pair or an
      unparsable date, always with status 400, and a date range is 24 hours. */
  lemma HistoryRangeOutcomes(q: RangeQuery, now: int, p: TimeParsers)
    ensures HistoryRange(q, now, p).Err? <==>
              (q.start != "" && q.end != "" && (ParseInt(q.start).None? || ParseInt(q.end).None?))
              || (!(q.start != "" && q.end != "") && q.date != "" && p.parseDate(q.date).None?)
    ensures HistoryRange(q, now, p).Err? ==> HistoryRange(q, now, p).error.status == StatusBadRequest
    ensures HistoryRange(q, now, p).Ok? && !(q.start != "" && q.end != "") && q.date != "" ==>
              HistoryRange(q, now, p).value.end == HistoryRange(q, now, p).value.start + DaySeconds
    ensures HistoryRange(q, now, p).Ok? && !(q.start != "" && q.end != "") && q.date == "" ==>
              HistoryRange(q, now, p).value.end == now
  {
  }

  /** Timestamps printed in decimal are read back exactly. */
  lemma HistoryRangeExplicit(s: int, e: int, date: string, duration: string, now: int, p: TimeParsers)
    requires Int64Min <= s <= Int64Max && Int64Min <= e <= Int64Max
    ensures HistoryRange(RangeQuery(IntToString(s), IntToString(e), date, duration), now, p) == Ok(TimeRange(s, e))
  {
    ParseIntRoundTrip(s);
    ParseIntRoundTrip(e);
  }

  /** A CSV export succeeds only with start+end or a date, selects the same
      range a history request with those parameters would, and names the
      file after the form used. */
  lemma CsvRangeAgreesWithHistory(q: RangeQuery, now: int, p: TimeParsers)
    ensures (q.start == "" || q.end == "") && q.date == "" ==>
              CsvRange(q, p.parseDate) == Err(HttpError(StatusBadRequest, "Missing range parameters"))
    ensures CsvRange(q, p.parseDate).Ok? ==>
              HistoryRange(q, now, p) == Ok(CsvRange(q, p.parseDate).value.range)
    ensures CsvRange(q, p.parseDate).Err? ==> CsvRange(q, p.parseDate).error.status == StatusBadRequest
    ensures CsvRange(q, p.parseDate).Ok? && q.start != "" && q.end != "" ==>
              CsvRange(q, p.parseDate).value.filename ==
                "telemetry_" + IntToString(CsvRange(q, p.parseDate).value.range.start) + "_"
                + IntToString(CsvRange(q, p.parseDate).value.range.end) + ".csv"
    ensures CsvRange(q, p.parseDate).Ok? && !(q.start != "" && q.end != "") ==>
              CsvRange(q, p.parseDate).value.filename == "telemetry_" + q.date + ".csv"
  {
  }

  // ---------------------------------------------------------------------
  // Down-sampling

  /** The stride between kept records. */
  function Stride(count: nat): (step: nat)
    ensures step >= 1
    ensures count <= MaxPoints ==> step == 1
    ensures count > MaxPoints ==> step * MaxPoints <= count < (step + 1) * MaxPoints
  {
    if count > MaxPoints then count / MaxPoints else 1
  }

  /** ceil(count / step): how many indices 0, step, 2*step, ... lie below count. */
  function SampleSize(count: nat): nat
  {
    (count + Stride(count) - 1) / Stride(count)
  }

  datatype Record = Record(
    timestamp: int,
    voltage: real, current: real, power: real,
    tempAmb: real, humAmb: real, dewPoint: real, tempLens: real,
    pwm1: int, pwm2: int,
    dc1: int, dc2: int, dc3: int, dc4: int, dc5: int,
    usbc12: int, usb345: int,
    adjConv: real)

  datatype DataPoint = DataPoint(
    timestamp: int,
    voltage: real, current: real, power: real,
    tempAmb: real, humAmb: real, dewPoint: real, tempLens: real,
    pwm1: int, pwm2: int,
    dc1: int, dc2: int, dc3: int, dc4: int, dc5: int,
    usbc12: int, usb345: int,
    adjConv: real)

  /** A history point copies every field of its record. */
  function ToDataPoint(r: Record): (d: DataPoint)
  {
    DataPoint(r.timestamp, r.voltage, r.current, r.power, r.tempAmb, r.humAmb, r.dewPoint, r.tempLens,
              r.pwm1, r.pwm2, r.dc1, r.dc2, r.dc3, r.dc4, r.dc5, r.usbc12, r.usb345, r.adjConv)
  }

  /** `result` holds the records at indices 0, step, 2*step, ... below the
      record count, in order, each copied to a point. */
  predicate IsDownsampling(records: seq<Record>, result: seq<DataPoint>)
  {
    && |result| * Stride(|records|) >= |records|
    && forall k :: 0 <= k < |result| ==>
         k * Stride(|records|) < |records| && result[k] == ToDataPoint(records[k * Stride(|records|)])
  }

  /** Multiplying by a natural number keeps the order. */
  lemma MulMono(a: int, b: int, c: nat)
    ensures a <= b ==> a * c <= b * c
  {
    if a <= b {
      assert b * c - a * c == (b - a) * c;
    }
  }

  /** t / step is the one q with q * step <= t < (q + 1) * step. */
  lemma DivUnique(t: nat, step: nat, q: nat)
    requires step >= 1
    requires q * step <= t < (q + 1) * step
    ensures q == t / step
  {
    var d := t / step;
    assert d * step <= t < (d + 1) * step;
    MulMono(q + 1, d, step);
    MulMono(d + 1, q, step);
  }

  /** The n whose multiples of step below count are exactly 0 .. n-1 is ceil(count/step). */
  lemma CeilDivision(count: nat, step: nat, n: nat)
    requires step >= 1
    requires n * step >= count && (n == 0 || (n - 1) * step < count)
    ensures n == (count + step - 1) / step
  {
    var t := count + step - 1;
    assert n * step == (n - 1) * step + step;
    DivUnique(t, step, n);
  }

  /** Above 2000 records the stride leaves between 2000 and 3999 points. */
  lemma StrideBounds(count: nat, n: nat)
    requires count > MaxPoints
    requires n * Stride(count) >= count && n >= 1 && (n - 1) * Stride(count) < count
    ensures MaxPoints <= n < 2 * MaxPoints
  {
    var step := Stride(count);
    MulMono(n, MaxPoints - 1, step);
    MulMono(2 * MaxPoints - 1, n - 1, step);
    assert (2 * MaxPoints - 1) * step == step * MaxPoints + (MaxPoints - 1) * step;
    MulMono(1, step, MaxPoints - 1);
  }

  /** A down-sampling has ceil(count/step) points: all records up to 2000,
      between 2000 and 3999 above that, the first record first. */
  lemma DownsamplingSize(records: seq<Record>, result: seq<DataPoint>)
    requires IsDownsampling(records, result)
    ensures |result| == SampleSize(|records|)
    ensures |records| <= MaxPoints ==> |result| == |records|
    ensures |records| > MaxPoints ==> MaxPoints <= |result| < 2 * MaxPoints
    ensures |records| > 0 ==> result[0] == ToDataPoint(records[0])
  {
    var count, step, n := |records|, Stride(|records|), |result|;
    if n > 0 {
      assert (n - 1) * step < count;
    }
    CeilDivision(count, step, n);
    if count > MaxPoints {
      StrideBounds(count, n);
    }
  }

  /** The description determines the result: there is one down-sampling. */
  lemma DownsamplingUnique(records: seq<Record>, a: seq<DataPoint>, b: seq<DataPoint>)
    requires IsDownsampling(records, a) && IsDownsampling(records, b)
    ensures a == b
  {
    DownsamplingSize(records, a);
    DownsamplingSize(records, b);
  }

  /** The next multiple of `step`. */
  lemma NextMultiple(n: nat, step: nat)
    ensures (n + 1) * step == n * step + step
  {
  }

  /** Takes every step-th record, starting with the first. */
  method Downsample(records: seq<Record>) returns (result: seq<DataPoint>)
    ensures IsDownsampling(records, result)
  {
    result := [];
    var count := |records|;
    var step := 1;
    if count > MaxPoints {
      step := count / MaxPoints;
    }
    var i := 0;
    while i < count
      invariant i == |result| * step
      invariant forall k :: 0 <= k < |result| ==> k * step < count && result[k] == ToDataPoint(records[k * step])
      decreases count - i
    {
      var r := records[i];
      NextMultiple(|result|, step);
      result := result + [ToDataPoint(r)];
      i := i + step;
    }
  }

  /** The log-dates endpoint answers with a JSON array in every case: a
      failed query or a nil result becomes the empty list. */
  function LogDatesBody(dates: Option<seq<string>>, failed: bool): (r: JsonArray<string>)
    ensures r.Array?
    ensures r.items == if failed || dates.None? then [] else dates.value
  {
    if failed then Array([])
    else match dates
      case None => Array([])
      case Some(ds) => Array(ds)
  }

  datatype HistoryReply = HistoryError(err: HttpError) | HistoryJson(body: JsonArray<DataPoint>)

  /** GET history: the range, the query, the down-sampled points. With no
      records the slice stays nil and encodes as null. */
  method HandleGetHistory(q: RangeQuery, now: int, p: TimeParsers, getHistory: TimeRange -> Option<seq<Record>>)
    returns (reply: HistoryReply)
    ensures HistoryRange(q, now, p).Err? ==> reply == HistoryError(HistoryRange(q, now, p).error)
    ensures HistoryRange(q, now, p).Ok? && getHistory(HistoryRange(q, now, p).value).None? ==>
              reply == HistoryError(HttpError(StatusInternalServerError, "Database error"))
    ensures HistoryRange(q, now, p).Ok? && getHistory(HistoryRange(q, now, p).value).Some? ==>
              var records := getHistory(HistoryRange(q, now, p).value).value;
              && reply.HistoryJson?
              && (reply.body.Null? <==> records == [])
              && (reply.body.Array? ==> IsDownsampling(records, reply.body.items))
  {
    var range := HistoryRange(q, now, p);
    if range.Err? {
      return HistoryError(range.error);
    }
    var records := getHistory(range.value);
    if records.None? {
      return HistoryError(HttpError(StatusInternalServerError, "Database error"));
    }
    var result := Downsample(records.value);
    DownsamplingSize(records.value, result);
    reply := HistoryJson(if result == [] then Null else Array(result));
  }

  // ---------------------------------------------------------------------
  // CSV export

  /** The columns an export may name. */
  const ValidColumns: set<string> := {
    "voltage", "current", "power",
    "t_amb", "h_amb", "dew_point", "t_lens",
    "pwm1", "pwm2",
    "dc1", "dc2", "dc3", "dc4", "dc5",
    "usbc12", "usb345", "adj_conv"}

  /** All columns in the order used when none is selected. */
  const DefaultColumns: seq<string> := [
    "voltage", "current", "power", "t_amb", "h_amb", "dew_point", "t_lens", "pwm1", "pwm2",
    "dc1", "dc2", "dc3", "dc4", "dc5", "usbc12", "usb345", "adj_conv"]

  /** No column appears twice in the default order. */
  lemma DefaultColumnsDistinct()
    ensures forall i, j :: 0 <= i < j < |DefaultColumns| ==> DefaultColumns[i] != DefaultColumns[j]
  {
  }

  /** The default order lists each column of the whitelist once. */
  lemma DefaultColumnsAreTheWhitelist()
    ensures |DefaultColumns| == 17
    ensures forall c :: c in DefaultColumns <==> c in ValidColumns
    ensures forall i, j :: 0 <= i < j < |DefaultColumns| ==> DefaultColumns[i] != DefaultColumns[j]
  {
    DefaultColumnsDistinct();
  }

  /** The trimmed parts that are in `valid` (the whitelist), in request order. */
  function ValidTokens(parts: seq<string>, valid: set<string>): (cols: seq<string>)
    ensures |cols| <= |parts|
    ensures forall k :: 0 <= k < |cols| ==> cols[k] in valid
  {
    if parts == [] then []
    else
      var t := TrimSpace(parts[|parts| - 1]);
      ValidTokens(parts[..|parts| - 1], valid) + (if t in valid then [t] else [])
  }

  /** The columns a `cols` parameter selects; the full default list when no
      valid column survives. */
  function SelectedColumns(cols: string): (selected: seq<string>)
    ensures selected != []
    ensures cols == "" ==> selected == DefaultColumns
  {
    var picked := if cols != "" then ValidTokens(Split(cols, ','), ValidColumns) else [];
    if picked == [] then DefaultColumns else picked
  }

  /** Every part of the request, trimmed. */
  function TrimAll(parts: seq<string>): (ts: seq<string>)
    ensures |ts| == |parts|
    ensures forall i :: 0 <= i < |parts| ==> ts[i] == TrimSpace(parts[i])
  {
    seq(|parts|, i requires 0 <= i < |parts| => TrimSpace(parts[i]))
  }

  /** A column is kept exactly when some part of the request names it, once
      trimmed, and it is on the whitelist. */
  lemma {:induction false} ValidTokensMembers(parts: seq<string>, valid: set<string>, c: string)
    ensures c in ValidTokens(parts, valid) <==> c in valid && c in TrimAll(parts)
  {
    if parts != [] {
      var m := |parts| - 1;
      var init := parts[..m];
      ValidTokensMembers(init, valid, c);
      assert TrimAll(parts) == TrimAll(init) + [TrimSpace(parts[m])];
    }
  }

  /** The selection is never empty and only names whitelisted columns. */
  lemma SelectedColumnsValid(cols: string)
    ensures 1 <= |SelectedColumns(cols)|
    ensures forall k :: 0 <= k < |SelectedColumns(cols)| ==> SelectedColumns(cols)[k] in ValidColumns
  {
    DefaultColumnsAreTheWhitelist();
  }

  /** An empty parameter, or one naming no whitelisted column, selects all
      columns in the default order. */
  lemma SelectedColumnsDefault(cols: string)
    ensures cols == "" ==> SelectedColumns(cols) == DefaultColumns
    ensures (forall c :: c in TrimAll(Split(cols, ',')) ==> c !in ValidColumns) ==>
              SelectedColumns(cols) == DefaultColumns
  {
    var parts := Split(cols, ',');
    if ValidTokens(parts, ValidColumns) != [] {
      var c := ValidTokens(parts, ValidColumns)[0];
      ValidTokensMembers(parts, ValidColumns, c);
    }
  }

  /** Splits the parameter on commas and keeps the trimmed whitelisted parts. */
  method SelectColumns(colsParam: string) returns (selectedCols: seq<string>)
    ensures selectedCols == SelectedColumns(colsParam)
  {
    selectedCols := [];
    if colsParam != "" {
      var parts := Split(colsParam, ',');
      for i := 0 to |parts|
        invariant selectedCols == ValidTokens(parts[..i], ValidColumns)
      {
        assert parts[..i + 1][..i] == parts[..i];
        var p := TrimSpace(parts[i]);
        if p in ValidColumns {
          selectedCols := selectedCols + [p];
        }
      }
      assert parts[..|parts|] == parts;
    }
    if |selectedCols| == 0 {
      selectedCols := DefaultColumns;
    }
  }

  /** A header cell: `col (custom)` when a custom name exists, is non-empty
      and differs from the key, otherwise the key itself. A nil name map
      behaves as an empty one. */
  function HeaderCell(col: string, switchNames: map<string, string>): (cell: string)
    ensures |col| <= |cell| && cell[..|col|] == col
    ensures col !in switchNames ==> cell == col
  {
    if col in switchNames && switchNames[col] != "" && switchNames[col] != col
    then col + " (" + switchNames[col] + ")"
    else col
  }

  /** A header cell always starts with its column key, and is the bare key
      exactly when there is no distinct non-empty custom name. */
  lemma HeaderCellShowsKey(col: string, switchNames: map<string, string>)
    ensures |col| <= |HeaderCell(col, switchNames)| && HeaderCell(col, switchNames)[..|col|] == col
    ensures HeaderCell(col, switchNames) == col <==>
              !(col in switchNames && switchNames[col] != "" && switchNames[col] != col)
  {
    if col in switchNames && switchNames[col] != "" && switchNames[col] != col {
      assert |HeaderCell(col, switchNames)| > |col|;
    }
  }

  /** "timestamp", then one cell per selected column. */
  method BuildHeader(selectedCols: seq<string>, switchNames: map<string, string>) returns (header: seq<string>)
    ensures |header| == 1 + |selectedCols| && header[0] == "timestamp"
    ensures forall k :: 0 <= k < |selectedCols| ==> header[k + 1] == HeaderCell(selectedCols[k], switchNames)
  {
    header := ["timestamp"];
    for i := 0 to |selectedCols|
      invariant |header| == 1 + i && header[0] == "timestamp"
      invariant forall k :: 0 <= k < i ==> header[k + 1] == HeaderCell(selectedCols[k], switchNames)
    {
      var col := selectedCols[i];
      var colHeader := col;
      if col in switchNames && switchNames[col] != "" && switchNames[col] != col {
        colHeader := col + " (" + switchNames[col] + ")";
      }
      header := header + [colHeader];
    }
  }

  /** RFC 3339 timestamps, `%v` of a float and `%.1f` of a float. */
  datatype CellFormats = CellFormats(timestamp: int -> string, general: real -> string, oneDecimal: real -> string)

  /** The text of one column of a record; integers print in decimal, floats
      through the formats, and an unknown column is empty. */
  function CellValue(col: string, r: Record, f: CellFormats): (cell: string)
    ensures col !in ValidColumns ==> cell == ""
  {
    match col
    case "voltage" => f.general(r.voltage)
    case "current" => f.general(r.current)
    case "power" => f.general(r.power)
    case "t_amb" => f.general(r.tempAmb)
    case "h_amb" => f.general(r.humAmb)
    case "dew_point" => f.general(r.dewPoint)
    case "t_lens" => f.general(r.tempLens)
    case "pwm1" => IntToString(r.pwm1)
    case "pwm2" => IntToString(r.pwm2)
    case "dc1" => IntToString(r.dc1)
    case "dc2" => IntToString(r.dc2)
    case "dc3" => IntToString(r.dc3)
    case "dc4" => IntToString(r.dc4)
    case "dc5" => IntToString(r.dc5)
    case "usbc12" => IntToString(r.usbc12)
    case "usb345" => IntToString(r.usb345)
    case "adj_conv" => f.oneDecimal(r.adjConv)
    case _ => ""
  }

  /** The timestamp, then one cell per selected column. */
  method BuildRow(r: Record, selectedCols: seq<string>, f: CellFormats) returns (row: seq<string>)
    ensures |row| == 1 + |selectedCols| && row[0] == f.timestamp(r.timestamp)
    ensures forall k :: 0 <= k < |selectedCols| ==> row[k + 1] == CellValue(selectedCols[k], r, f)
  {
    row := [f.timestamp(r.timestamp)];
    for i := 0 to |selectedCols|
      invariant |row| == 1 + i && row[0] == f.timestamp(r.timestamp)
      invariant forall k :: 0 <= k < i ==> row[k + 1] == CellValue(selectedCols[k], r, f)
    {
      row := row + [CellValue(selectedCols[i], r, f)];
    }
  }

  /** The header followed by one row per record. */
  method BuildTable(header: seq<string>, records: seq<Record>, selectedCols: seq<string>, f: CellFormats)
    returns (rows: seq<seq<string>>)
    requires |header| == 1 + |selectedCols|
    ensures |rows| == 1 + |records| && rows[0] == header
    ensures forall i :: 0 <= i < |rows| ==> |rows[i]| == 1 + |selectedCols|
    ensures forall i :: 0 <= i < |records| ==> rows[i + 1][0] == f.timestamp(records[i].timestamp)
    ensures forall i, k :: 0 <= i < |records| && 0 <= k < |selectedCols| ==>
              rows[i + 1][k + 1] == CellValue(selectedCols[k], records[i], f)
  {
    rows := [header];
    for i := 0 to |records|
      invariant |rows| == 1 + i && rows[0] == header
      invariant forall j :: 0 <= j < |rows| ==> |rows[j]| == 1 + |selectedCols|
      invariant forall j :: 0 <= j < i ==> rows[j + 1][0] == f.timestamp(records[j].timestamp)
      invariant forall j, k :: 0 <= j < i && 0 <= k < |selectedCols| ==>
                  rows[j + 1][k + 1] == CellValue(selectedCols[k], records[j], f)
    {
      var row := BuildRow(records[i], selectedCols, f);
      rows := rows + [row];
    }
  }

  datatype CsvReply = CsvError(err: HttpError) | CsvFile(filename: string, rows: seq<seq<string>>)

  /** GET CSV export: range and file name, the query, the columns, the
      header and one row per record, each row as wide as the header. */
  method HandleDownloadCSV(q: RangeQuery, colsParam: string, parseDate: string -> Option<int>,
                           getHistory: TimeRange -> Option<seq<Record>>,
                           switchNames: map<string, string>, f: CellFormats)
    returns (reply: CsvReply)
    ensures CsvRange(q, parseDate).Err? ==> reply == CsvError(CsvRange(q, parseDate).error)
    ensures CsvRange(q, parseDate).Ok? && getHistory(CsvRange(q, parseDate).value.range).None? ==>
              reply == CsvError(HttpError(StatusInternalServerError, "Database error"))
    ensures CsvRange(q, parseDate).Ok? && getHistory(CsvRange(q, parseDate).value.range).Some? ==>
              var records := getHistory(CsvRange(q, parseDate).value.range).value;
              var cols := SelectedColumns(colsParam);
              && reply.CsvFile?
              && reply.filename == CsvRange(q, parseDate).value.filename
              && |reply.rows| == 1 + |records|
              && (forall i :: 0 <= i < |reply.rows| ==> |reply.rows[i]| == 1 + |cols|)
              && reply.rows[0][0] == "timestamp"
              && (forall k :: 0 <= k < |cols| ==> reply.rows[0][k + 1] == HeaderCell(cols[k], switchNames))
              && (forall i :: 0 <= i < |records| ==> reply.rows[i + 1][0] == f.timestamp(records[i].timestamp))
              && (forall i, k :: 0 <= i < |records| && 0 <= k < |cols| ==>
                    reply.rows[i + 1][k + 1] == CellValue(cols[k], records[i], f))
  {
    var target := CsvRange(q, parseDate);
    if target.Err? {
      return CsvError(target.error);
    }
    var records := getHistory(target.value.range);
    if records.None? {
      return CsvError(HttpError(StatusInternalServerError, "Database error"));
    }
    var selectedCols := SelectColumns(colsParam);
    var header := BuildHeader(selectedCols, switchNames);
    var rows := BuildTable(header, records.value, selectedCols, f);
    reply := CsvFile(target.value.filename, rows);
  }
}
