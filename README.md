# SV241 Alpaca proxy core, modelled in Dafny

This project models the deterministic core of the SV241 ASCOM Alpaca proxy (Go). It covers five parts:

- **Switch-table rebuild** (`SwitchSync`). After a firmware configuration query, the proxy rebuilds its two switch tables: id → internal name and id → short wire key. The order is the eight standard channels, then every dew heater whose mode is not 5 (disabled), then `master_power` last. Ids are dense from 0. A failed query or an undecodable reply leaves both tables untouched. `BuildSwitchMaps` keeps the source's two loops, its final master-power assignment and its running id counter, and is proved equal to the tables of a pure `SwitchOrder`. The lemmas prove the properties of those tables: fixed standard ids, density, master power last, absent disabled heaters, unique names.
- **Alpaca response envelope** (`AlpacaResponses`). The two process-wide transaction counters are fields of `TransactionCounters`. Every standard response reads the client id and issues the next server id modulo 2^32. A ghost history of issued ids shows that up to 2^32 consecutive responses never repeat an id. Error responses are HTTP 200 and write one error-level log line. The management response is a pure function that touches no counter.
- **Live log hub** (`LogStream`). `Hub` owns a set of `Client`s. Each client has a send queue (capacity 256) and a closed flag. Register, unregister and broadcast are methods, and `Apply` performs one turn of the hub loop. `Broadcast` is proved to act on the queues as the pure `Deliver` does: clients with room get the message, full clients are dropped and closed. `Deliver` keeps every queue within capacity. Several broadcasts in a row deliver everything to a client with room and drop one without room. `Client.WritePumpStep` drains the queue into one newline-joined frame. The messages are log lines that already end in a newline, so splitting a frame at newlines gives each line's text followed by an empty part. `Broadcaster.Write` always reports the whole buffer written and hands the hub a copy taken at call time.
- **Telemetry endpoints** (`TelemetryApi`). This part covers:
  - the precedence among the range parameters and their error replies;
  - the down-sampling stride, proved to keep every step-th record: up to 2000 records are kept whole, and above that between 2000 and 3999 points remain;
  - the empty-list fallback of the log-dates endpoint;
  - for the CSV export: file name, whitelist column selection with its default, header with custom names, and rows exactly as wide as the header.

  The database, the clock, date and duration parsing and float formatting are parameters.
- **Logger** (`Logging`). The four levels and their order, and the case-insensitive level setter with its Info default. The gated output calls write a fixed level prefix only when the current level is at least the message's level.

Shared helpers: Go's `strings.Split`, `strings.TrimSpace` and newline joining (`Text`), and `%d` / `strconv.ParseInt(s, 10, 64)` (`Decimal`), with a print-then-parse round trip. `Wrappers` holds `Option` and `Result`.

`ErrorResponse` (`AscomAlpacaProxy/internal/alpaca/responses.go:71-90`) passes `errNum` through unchecked; nothing forces it to be non-zero, and the model does the same.

## Model

| member | source | states |
|---|---|---|
| SwitchSync.BuildSwitchMaps | AscomAlpacaProxy/internal/serial/serial_sync.go:36-73 | the two maps built by the two loops and the final master-power assignment are exactly the id→name and id→short-key tables of the switch order: standard channels, enabled heaters, master power |
| SwitchSync.SwitchConfig.SyncFirmwareConfig | AscomAlpacaProxy/internal/serial/serial_sync.go:19-79 | a failed command or unparsable reply keeps both global tables; a parsed reply replaces both wholesale with the freshly built tables; well-formed tables stay well formed |
| SwitchSync.BuiltTablesWellFormed | AscomAlpacaProxy/internal/serial/serial_sync.go:36-79 | freshly built tables have the same keys, dense ids, master power under the last id and no name twice |
| SwitchSync.StandardIdsFixed | AscomAlpacaProxy/internal/serial/serial_sync.go:46-55 | ids 0..7 are always dc1..dc5, usbc12, usb345, adj_conv with short keys d1..d5, u12, u34, adj |
| SwitchSync.TablesDense | AscomAlpacaProxy/internal/serial/serial_sync.go:49-79 | both tables have exactly the keys 0..N-1 with N = 9 + enabled heaters; id 8 + enabled heaters is master_power / all |
| SwitchSync.EnabledHeaterId | AscomAlpacaProxy/internal/serial/serial_sync.go:58-65 | an enabled heater at firmware position i gets id 8 + (enabled heaters before it), named and keyed "pwm{i+1}" |
| SwitchSync.DisabledHeaterAbsent | AscomAlpacaProxy/internal/serial/serial_sync.go:58-69 | a heater with mode 5 appears in neither table, as name or as short key |
| SwitchSync.NamesUnique | AscomAlpacaProxy/internal/serial/serial_sync.go:46-73 | no internal name is stored under two ids |
| SwitchSync.ExampleOneDisabled | AscomAlpacaProxy/internal/serial/serial_sync.go:51-73 | modes [1, 5]: ids 0..9, id 8 is pwm1 (key pwm1), id 9 is master_power, pwm2 absent |
| SwitchSync.HeaterNameInjective | AscomAlpacaProxy/internal/serial/serial_sync.go:60-61 | different firmware positions give different "pwm{i+1}" names |
| SwitchSync.HeaterNamesApart | AscomAlpacaProxy/internal/serial/serial_sync.go:46-73 | a heater name clashes with no standard name or key, nor with master_power / all |
| SwitchSync.HeaterEntriesCount | AscomAlpacaProxy/internal/serial/serial_sync.go:58-69 | the heater loop adds one switch per heater whose mode is not 5 |
| SwitchSync.HeaterEntriesFrom | AscomAlpacaProxy/internal/serial/serial_sync.go:58-69 | every added heater switch is an enabled heater named after its firmware position |
| SwitchSync.HeaterEntriesDistinct | AscomAlpacaProxy/internal/serial/serial_sync.go:58-69 | the heater loop never adds the same name twice |
| SwitchSync.HeaterEntryAt | AscomAlpacaProxy/internal/serial/serial_sync.go:58-69 | the enabled heater at position i is added as heater switch number (enabled heaters before i) |
| SwitchSync.TableSize | AscomAlpacaProxy/internal/serial/serial_sync.go:37-73 | a table built from n switches has n entries |
| AlpacaResponses.NextID | AscomAlpacaProxy/internal/alpaca/responses.go:55 | atomic add of one on a uint32: x + 1, and 0 after 2^32 - 1 |
| AlpacaResponses.IssuedIDs | AscomAlpacaProxy/internal/alpaca/responses.go:53-134 | the k server ids issued from counter s are (s + j + 1) mod 2^32 for j < k |
| AlpacaResponses.IssuedIDsDistinct | AscomAlpacaProxy/internal/alpaca/responses.go:53-134 | at most 2^32 consecutive responses receive pairwise distinct server ids |
| AlpacaResponses.IssuedIDsIncreasing | AscomAlpacaProxy/internal/alpaca/responses.go:53-134 | without wrap-around the issued ids are s+1, s+2, ... and strictly increasing |
| AlpacaResponses.IssuedNeverRepeats | AscomAlpacaProxy/internal/alpaca/responses.go:53-134 | the recorded history of a counter object never repeats an id while it is at most 2^32 long |
| AlpacaResponses.ManagementValueResponse | AscomAlpacaProxy/internal/alpaca/responses.go:27-43 | status 200, the value as given, both ids and the error number 0, empty message; no counter involved |
| AlpacaResponses.TransactionCounters.NextServerTransactionID | AscomAlpacaProxy/internal/alpaca/responses.go:55 | the counter advances by one modulo 2^32, the new value is returned and recorded; the client id is unchanged |
| AlpacaResponses.TransactionCounters.StandardResponse | AscomAlpacaProxy/internal/alpaca/responses.go:60-69 | shared shape of a value response: current client id, fresh server id, error 0 and "", the given value |
| AlpacaResponses.TransactionCounters.EmptyResponse | AscomAlpacaProxy/internal/alpaca/responses.go:52-58 | bare envelope with current client id, next server id, no error, no value; counter advanced by one |
| AlpacaResponses.TransactionCounters.StringListResponse | AscomAlpacaProxy/internal/alpaca/responses.go:60-69 | envelope carrying exactly the list, error 0 and ""; counter advanced by one |
| AlpacaResponses.TransactionCounters.StringResponse | AscomAlpacaProxy/internal/alpaca/responses.go:92-101 | envelope carrying exactly the string, error 0 and ""; counter advanced by one |
| AlpacaResponses.TransactionCounters.IntResponse | AscomAlpacaProxy/internal/alpaca/responses.go:103-112 | envelope carrying exactly the integer, error 0 and ""; counter advanced by one |
| AlpacaResponses.TransactionCounters.FloatResponse | AscomAlpacaProxy/internal/alpaca/responses.go:114-123 | envelope carrying exactly the number, error 0 and ""; counter advanced by one |
| AlpacaResponses.TransactionCounters.BoolResponse | AscomAlpacaProxy/internal/alpaca/responses.go:125-134 | envelope carrying exactly the boolean, error 0 and ""; counter advanced by one |
| AlpacaResponses.TransactionCounters.ErrorResponse | AscomAlpacaProxy/internal/alpaca/responses.go:71-90 | HTTP 200 whatever the error number, the number and message as given, counter advanced by one, and exactly one "[ERROR] Alpaca request failed with error N: msg" log line |
| LogStream.Hub.constructor | AscomAlpacaProxy/internal/logstream/logstream.go:77-85 | a new hub has no clients |
| LogStream.Hub.Register | AscomAlpacaProxy/internal/logstream/logstream.go:32-33 | the client joins the set (no change if already present) and its queue becomes visible to broadcasts |
| LogStream.Hub.Unregister | AscomAlpacaProxy/internal/logstream/logstream.go:34-38 | a present client is removed and its queue closed; an absent client is ignored, so no queue is closed twice |
| LogStream.Hub.Broadcast | AscomAlpacaProxy/internal/logstream/logstream.go:39-47 | the queues become exactly Deliver(old queues, msg): room → message at the tail, full → removed and closed, other queues untouched |
| LogStream.Hub.Apply | AscomAlpacaProxy/internal/logstream/logstream.go:29-50 | one turn of the hub loop applies the arriving event and keeps every registered queue open and within capacity |
| LogStream.Deliver | AscomAlpacaProxy/internal/logstream/logstream.go:39-47 | a broadcast only removes clients, keeps every queue within the 256 capacity, and grows each kept queue by one message behind its old contents |
| LogStream.DeliverAllReceivesAll | AscomAlpacaProxy/internal/logstream/logstream.go:39-47 | a client with room for a run of broadcasts stays registered and receives all of them in order |
| LogStream.DeliverAllDropsOverrun | AscomAlpacaProxy/internal/logstream/logstream.go:39-47 | a client without room for a run of broadcasts is dropped |
| LogStream.DeliverAllAbsent | AscomAlpacaProxy/internal/logstream/logstream.go:39-47 | a dropped client never returns through broadcasts |
| LogStream.Client.constructor | AscomAlpacaProxy/internal/logstream/logstream.go:103 | a new client has an empty, open send queue |
| LogStream.Client.WritePumpStep | AscomAlpacaProxy/internal/logstream/logstream.go:137-163 | a non-empty queue is sent as one frame: first message, then "\n" + m for each further message in FIFO order, leaving the queue empty; a closed empty queue yields a close frame |
| LogStream.Lines | AscomAlpacaProxy/internal/logger/logger.go:60-61 | each text (a line's content without its terminating newline) becomes that text followed by one newline, which the standard logger appends when missing, as it hands the line to the broadcaster |
| LogStream.LineParts | AscomAlpacaProxy/internal/logstream/logstream.go:151-159 | twice as many parts as lines, and newline-free when the texts are |
| LogStream.LinePartsAt | AscomAlpacaProxy/internal/logstream/logstream.go:151-159 | part 2i is text i and part 2i+1 is empty |
| LogStream.FrameOfLines | AscomAlpacaProxy/internal/logstream/logstream.go:151-159 | a frame of log lines equals the newline-join of their texts interleaved with empty parts |
| LogStream.FrameRecoversMessages | AscomAlpacaProxy/internal/logstream/logstream.go:151-159 | splitting a frame of newline-terminated log lines at newlines gives each line's text followed by an empty part |
| LogStream.FrameOfTwoLines | AscomAlpacaProxy/internal/logstream/logstream.go:151-159 | the frame of "A\n" and "B\n" splits into "A", "", "B", "" |
| LogStream.Broadcaster.Write | AscomAlpacaProxy/internal/logstream/logstream.go:59-74 | always returns (len(p), nil); with a ready hub the queues become Deliver(old queues, copy of p), otherwise they are unchanged |
| LogStream.WriteThenReuseBuffer | AscomAlpacaProxy/internal/logstream/logstream.go:56-68 | overwriting the caller's buffer after a write does not change what the hub queued |
| TelemetryApi.HistoryRange | AscomAlpacaProxy/internal/telemetry/api.go:45-78 | every error is a 400; a date range spans 86400 s; without both start and end and without a date, the range ends now and reaches back a parsable duration, or 12 hours when the duration is missing or unparsable (also when only one of start and end is given) |
| TelemetryApi.CsvRange | AscomAlpacaProxy/internal/telemetry/api.go:151-177 | every error is a 400; every file name starts with "telemetry_" and ends with ".csv" |
| TelemetryApi.HistoryRangePrecedence | AscomAlpacaProxy/internal/telemetry/api.go:48-78 | with start and end both given, date and duration are ignored; with a date (and not both), duration is ignored; otherwise a parsable duration d gives [now - d, now], and no duration or an unparsable one gives the last 12 hours |
| TelemetryApi.HistoryRangeOutcomes | AscomAlpacaProxy/internal/telemetry/api.go:48-78 | a history request fails exactly for an unparsable start/end pair or an unparsable date, always with 400; a date spans 86400 s; the duration and default forms end now |
| TelemetryApi.HistoryRangeExplicit | AscomAlpacaProxy/internal/telemetry/api.go:48-58 | any two 64-bit timestamps written in decimal are selected exactly |
| TelemetryApi.CsvRangeAgreesWithHistory | AscomAlpacaProxy/internal/telemetry/api.go:151-177 | an export without start+end or date is "Missing range parameters" (400); errors are 400; a successful export selects the range a history request would, named telemetry_S_E.csv or telemetry_DATE.csv |
| TelemetryApi.Stride | AscomAlpacaProxy/internal/telemetry/api.go:90-94 | the stride is 1 for at most 2000 records and, above 2000, the quotient of the count by 2000 |
| TelemetryApi.StrideBounds | AscomAlpacaProxy/internal/telemetry/api.go:90-96 | above 2000 records, the number of kept indices lies in 2000..3999 |
| TelemetryApi.Downsample | AscomAlpacaProxy/internal/telemetry/api.go:87-122 | the loop keeps exactly the records at 0, step, 2·step, ... below the count, in order, each copied field by field |
| TelemetryApi.DownsamplingSize | AscomAlpacaProxy/internal/telemetry/api.go:87-122 | a down-sampling has ceil(count/step) points: all records up to 2000, 2000..3999 above, and starts with the first record |
| TelemetryApi.DownsamplingUnique | AscomAlpacaProxy/internal/telemetry/api.go:96-122 | the description of the down-sampling determines its result |
| TelemetryApi.HandleGetHistory | AscomAlpacaProxy/internal/telemetry/api.go:39-126 | range errors reply as given, a failed query replies 500 "Database error", otherwise the JSON body is the down-sampling (null exactly when there are no records) |
| TelemetryApi.LogDatesBody | AscomAlpacaProxy/internal/telemetry/api.go:129-142 | always a JSON array, never null: the dates, or the empty list on a failed query or a nil result |
| TelemetryApi.DefaultColumnsAreTheWhitelist | AscomAlpacaProxy/internal/telemetry/api.go:190-220 | the 17-entry default order names exactly the whitelisted columns, each once |
| TelemetryApi.ValidTokens | AscomAlpacaProxy/internal/telemetry/api.go:205-211 | the kept parts are no more than the parts and all whitelisted |
| TelemetryApi.SelectedColumns | AscomAlpacaProxy/internal/telemetry/api.go:198-220 | the selection is never empty, and an empty parameter selects the default list |
| TelemetryApi.ValidTokensMembers | AscomAlpacaProxy/internal/telemetry/api.go:198-212 | a column is kept exactly when it is whitelisted and some part names it once trimmed |
| TelemetryApi.SelectedColumnsValid | AscomAlpacaProxy/internal/telemetry/api.go:198-220 | the selection is never empty and names only whitelisted columns |
| TelemetryApi.SelectedColumnsDefault | AscomAlpacaProxy/internal/telemetry/api.go:214-220 | an empty parameter, or one naming no whitelisted column, selects all 17 columns in the default order |
| TelemetryApi.SelectColumns | AscomAlpacaProxy/internal/telemetry/api.go:198-220 | the loop's selection is the trimmed whitelisted parts in request order, or the default list when none survive |
| TelemetryApi.HeaderCell | AscomAlpacaProxy/internal/telemetry/api.go:232-237 | a header cell starts with its column key, and is the bare key when no custom name exists |
| TelemetryApi.HeaderCellShowsKey | AscomAlpacaProxy/internal/telemetry/api.go:231-238 | a header cell starts with its key, and is the bare key exactly when no non-empty, different custom name exists |
| TelemetryApi.BuildHeader | AscomAlpacaProxy/internal/telemetry/api.go:229-240 | "timestamp" then one header cell per selected column, in order |
| TelemetryApi.CellValue | AscomAlpacaProxy/internal/telemetry/api.go:248-287 | a column outside the whitelist yields an empty cell |
| TelemetryApi.BuildRow | AscomAlpacaProxy/internal/telemetry/api.go:242-287 | the formatted timestamp, then each selected column's cell, in order |
| TelemetryApi.BuildTable | AscomAlpacaProxy/internal/telemetry/api.go:240-289 | the header and one row per record, every row exactly as wide as the header |
| TelemetryApi.HandleDownloadCSV | AscomAlpacaProxy/internal/telemetry/api.go:145-291 | range errors and database errors reply as the source does; otherwise the file name of the range form, a header and a row per record, each one cell wider than the selection |
| Logging.LogLevel.Rank | AscomAlpacaProxy/internal/logger/logger.go:16-21 | Error 0 < Warn 1 < Info 2 < Debug 3 |
| Logging.ToUpper | AscomAlpacaProxy/internal/logger/logger.go:72 | upper case rune by rune, same length |
| Logging.ToUpperIdempotent | AscomAlpacaProxy/internal/logger/logger.go:72 | upper-casing twice equals upper-casing once |
| Logging.LevelFromString | AscomAlpacaProxy/internal/logger/logger.go:72-83 | the selected level is Info unless the upper-cased string is that level's name |
| Logging.Enabled | AscomAlpacaProxy/internal/logger/logger.go:101-122 | error messages always pass, everything passes at Debug, and at Error only error messages pass |
| Logging.LevelFromStringIgnoresCase | AscomAlpacaProxy/internal/logger/logger.go:71-84 | a string and its upper case select the same level |
| Logging.LevelFromStringRecognises | AscomAlpacaProxy/internal/logger/logger.go:72-80 | any spelling whose upper case is a level name selects that level |
| Logging.LevelFromStringCases | AscomAlpacaProxy/internal/logger/logger.go:71-84 | Debug, Warn, Error are selected exactly by their names in any case; every other string selects Info |
| Logging.LevelFromStringExamples | AscomAlpacaProxy/internal/logger/logger.go:71-84 | "debug", "Warn", "error" select their levels; "ınfo" (dotless i) and "verbose" select Info |
| Logging.GateMonotone | AscomAlpacaProxy/internal/logger/logger.go:100-125 | error lines pass at every level; a line that passes at one level passes at every more verbose one |
| Logging.Prefix | AscomAlpacaProxy/internal/logger/logger.go:102-123 | the prefix is "[" + level name + "] " |
| Logging.Logger.constructor | AscomAlpacaProxy/internal/logger/logger.go:23-26 | the level starts at Info, with nothing written |
| Logging.Logger.GetLevel | AscomAlpacaProxy/internal/logger/logger.go:87-89 | returns the current level, which the constructor sets to Info and SetLevelFromString replaces |
| Logging.Logger.SetLevelFromString | AscomAlpacaProxy/internal/logger/logger.go:71-89 | afterwards GetLevel returns the level the string selects; nothing is written |
| Logging.Logger.Emit | AscomAlpacaProxy/internal/logger/logger.go:100-125 | the prefixed line is appended exactly when the current level is at least the message's; the level is unchanged |
| Logging.Logger.Error | AscomAlpacaProxy/internal/logger/logger.go:99-104 | always appends "[ERROR] " + msg |
| Logging.Logger.Warn | AscomAlpacaProxy/internal/logger/logger.go:106-111 | appends "[WARN] " + msg exactly when the level is Warn or above |
| Logging.Logger.Info | AscomAlpacaProxy/internal/logger/logger.go:113-118 | appends "[INFO] " + msg exactly when the level is Info or Debug |
| Logging.Logger.Debug | AscomAlpacaProxy/internal/logger/logger.go:120-125 | appends "[DEBUG] " + msg exactly when the level is Debug |
| Text.Join | AscomAlpacaProxy/internal/logstream/logstream.go:151-159 | the joined frame starts with the first part and is at least as long as the separators between the parts |
| Text.Split | AscomAlpacaProxy/internal/telemetry/api.go:205 | strings.Split always yields at least one part; JoinSplit is its inverse |
| Text.SplitPartsFree | AscomAlpacaProxy/internal/telemetry/api.go:205 | no part produced by strings.Split contains the separator |
| Text.JoinSplit | AscomAlpacaProxy/internal/telemetry/api.go:205 | joining the parts of a split with the separator gives back the input |
| Text.SplitJoin | AscomAlpacaProxy/internal/logstream/logstream.go:153-159 | splitting a join of separator-free parts gives back the parts |
| Text.TrimSpace | AscomAlpacaProxy/internal/telemetry/api.go:207 | the result is the slice of the input left after the leading and trailing white space (Go's unicode.IsSpace), and neither end of it is a space |
| Decimal.NatToString | AscomAlpacaProxy/internal/serial/serial_sync.go:60 | `%d` of a natural number: digits only, no leading zero |
| Decimal.IntToString | AscomAlpacaProxy/internal/telemetry/api.go:160 | `%d` of an integer starts with '-' exactly for negatives |
| Decimal.ParseInt | AscomAlpacaProxy/internal/telemetry/api.go:50-51 | strconv.ParseInt base 10: succeeds exactly for an optional sign followed by one or more digits whose signed value lies in the int64 range, and then returns that value |
| Decimal.ParseIntRoundTrip | AscomAlpacaProxy/internal/telemetry/api.go:155-160 | every int64 printed with `%d` parses back to itself |
| Decimal.NatToStringValue | AscomAlpacaProxy/internal/serial/serial_sync.go:60 | the printed digits of n have value n |
| Decimal.NatToStringInjective | AscomAlpacaProxy/internal/serial/serial_sync.go:60-61 | different numbers print differently |
| Decimal.IntToStringInjective | AscomAlpacaProxy/internal/telemetry/api.go:160 | different timestamps print differently, so different ranges get different file names |

## Left out

- Network, serial port and HTTP I/O. `SendCommand` and `json.Unmarshal` become the three outcomes of `FirmwareConfig`. The HTTP response writer becomes returned reply values. JSON and CSV encoding are not modelled; the CSV is its table of cells.
- The one-second sleep and the info/error log lines inside the firmware sync. The global `config` package is not part of this model; its two tables are the fields of `SwitchConfig`.
- Where the two transaction counters are declared and where the client id is written: not part of this model. The counters are class fields, and `atomic` operations are sequential updates.
- Goroutines, channels, the WebSocket upgrade, read/write deadlines, the 50 s ping ticker and the pong handler. `Hub.Run`'s endless loop is modelled one event at a time by `Hub.Apply`.
- `Broadcaster.Write`: whether the unbuffered hub channel takes the message at that instant is the parameter `hubReady`. Copying `p` is modelled as taking `p[..]`.
- LogStream.WriteThenReuseBuffer: hub queues hold sequence values, so the model cannot express the hazard the copy guards against. In Go, without the copy, the hub would keep a slice aliasing the logger's reused buffer. Here the property holds whatever `Write` does.
- LogStream.Client.WritePumpStep: the pump sends the whole queue in one frame, because in a sequential model nothing is enqueued between reading the queue length and draining it.
- Logger setup, file rotation, `io.MultiWriter`, the standard logger's timestamp flags and `Fatal`'s exit. `printf` formatting is left out: each line is the level prefix followed by an already formatted message.
- Logging.ToUpper: the upper case is modelled on ASCII letters plus the two non-ASCII runes whose upper case is an ASCII letter (U+0131 → I, U+017F → S). Other runes keep a non-ASCII upper case in Go, so they can never match a level name either way.
- The telemetry database, `time.Now`, `time.Parse("2006-01-02", …)`, `time.ParseDuration`, RFC 3339 formatting and `%v` / `%.1f` float formatting are function parameters. Durations are whole seconds. The two clock reads of the duration and default branches are one `now`.
- The error log line that `HandleGetHistory` and `HandleGetLogDates` write on a failed query.
- Floating-point telemetry values are carried as `real` and never computed on.
- A nil custom-name map is treated as an empty map; the header it yields is the same.
