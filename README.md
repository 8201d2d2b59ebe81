# jstat log to chart series, modelled in Dafny

`jstatplotkun` reads the text log of `jstat -gc` or `jstat -gcutil`, turns
every line after the column header into a record of garbage-collector
figures stamped with a synthesized time, and turns those records into titled
point series, one per field name a chart asks for. This project models that
pipeline of `main.go`:

- `Tokens` — the field splitter `pattern.Split(line, -1)` with the pattern
  `\s+`, including Go's empty tokens before leading and after trailing
  whitespace.
- `Numbers` — `tof64`: a token that is not a number reads as 0. `ParseNum`
  stands in for `strconv.ParseFloat` on decimal literals.
- `Clock` — time as integer nanoseconds since the Unix epoch, Go's zero
  time, `Unix()` as floor division, and the millisecond interval converted
  to a 64-bit `Duration`.
- `Samples` — the `gc` and `gcutil` records, their tagged fields, and the
  positional builders `parseGc` and `parseGcUtil`.
- `Parser` — `parse`: a method that fills an array with one record per data
  line while a local clock advances by the interval, proved equal to a
  recursive specification. Lemmas give its closed form.
- `Series` — `prepare`: a method with nested loops, proved equal to a
  per-name series specification. Lemmas cover the whole pipeline from log
  lines to chart points.
- `Charts` — the chart tables of `run`.

The Go code panics in two ways that the model turns into error values:
`make` with length -1 when the log has no line (main.go:187 and 198), and an
index out of range when a line has too few tokens, in `parseGc`
(main.go:112-126) and in `parseGcUtil` (main.go:140-149). `parse` itself
returns an error for any mode other than `gc` and `gcutil`.

Go's `regexp.Split` keeps an empty token before leading and after trailing
whitespace, so a data line indented by `jstat`'s column alignment reads as 0
in its first field, and every other field shifts by one position
(`Samples.ParseGcLeadingSpace`).

## Model

| member | source | states |
|---|---|---|
| Tokens.Split | main.go:110 | no contract of its own: `SplitSound` and `SplitUnique` below pin it down as Go's split at maximal `\s+` runs (also used at main.go:138) |
| Tokens.SplitSound | main.go:97 | `Split(s)` and `Separators(s)` cut `s` into tokens without whitespace and non-empty whitespace runs that interleave back to `s`, with only the first and last token possibly empty |
| Tokens.SplitUnique | main.go:97 | any such decomposition of a line is the one `Split` gives, so `Split` is exactly Go's split at maximal `\s+` runs |
| Tokens.SplitConcat | main.go:110 | joining two lines with a whitespace run splits into the tokens of the first followed by those of the second |
| Tokens.SplitLeadingSpace | main.go:110 | leading whitespace yields one empty first token before the tokens of the rest |
| Tokens.SplitTrailingSpace | main.go:110 | trailing whitespace yields one empty last token |
| Tokens.SplitCollapse | main.go:110 | any two non-empty whitespace runs between the same text give the same tokens |
| Numbers.ParseNum | main.go:103-106 | a token with a value contains a digit |
| Numbers.ToF64 | main.go:103-106 | a token without a digit reads as 0, the parse error being discarded; `ToF64Decimal` and `ToF64NegativeDecimal` give printed whole numbers their value |
| Numbers.ToF64NoDigit | main.go:103-106 | a token without a digit, the empty token among them, reads as 0 |
| Numbers.ToF64Decimal | main.go:103-106 | a printed natural number reads back as that number |
| Numbers.ToF64NegativeDecimal | main.go:103-106 | a printed negative whole number reads back as that number |
| Clock.Time.Add | main.go:192 | the result is after the receiver exactly when `d` is positive, before it exactly when `d` is negative, and the receiver itself for a zero `d` (Go's `After`/`Before`); `Parser.Tick` (k advances land k × d after the start) and `UnixAddWholeSeconds` pin down the distance |
| Clock.Time.Unix | main.go:232 | `Unix()` is the whole number of seconds at or before the instant |
| Clock.ZeroTimeUnix | main.go:128-130 | the zero time that an untouched `time` field keeps is -62135596800 Unix seconds |
| Clock.UnixAddWholeSeconds | main.go:192 | advancing by a whole number of seconds advances `Unix()` by as many |
| Clock.WrapInt64 | main.go:327 | the result is congruent to the input modulo 2^64 and equal to it when in range |
| Clock.IntervalNanos | main.go:327 | the `Duration` is congruent to ms × 1000000 modulo 2^64; `IntervalExact`, `IntervalWraps` and `IntervalWrapsToZero` pin down where it is exact and where it wraps |
| Clock.IntervalExact | main.go:327 | an interval of at most 9223372036854 ms converts exactly to ms × 1000000 ns |
| Clock.IntervalWraps | main.go:327 | one millisecond more wraps to a negative duration |
| Clock.IntervalWrapsToZero | main.go:327 | 2^58 ms wraps to a zero duration |
| Samples.GcRecordValues | main.go:62-79 | building a `gc` record from fifteen values and reading its tagged fields back gives those values |
| Samples.GcUtilRecordValues | main.go:82-94 | the same for `gcutil` and ten values |
| Samples.GcField | main.go:224-230 | no contract of its own: `GcFieldTagged` and `GcFieldAt` below pin down which names find a field and which field each finds |
| Samples.GcUtilField | main.go:246-252 | no contract of its own: `GcUtilFieldTagged` and `GcUtilFieldAt` below pin it down |
| Samples.GcFieldTagged | main.go:62-79 | a field lookup by name succeeds exactly for the fifteen tagged `gc` fields, never for `time` |
| Samples.GcUtilFieldTagged | main.go:82-94 | a field lookup by name succeeds exactly for the ten tagged `gcutil` fields |
| Samples.GcFieldAt | main.go:62-79 | looking up the `i`-th column name gives the `i`-th tagged `gc` field |
| Samples.GcUtilFieldAt | main.go:82-94 | looking up the `i`-th column name gives the `i`-th tagged `gcutil` field |
| Samples.GcOfTokens | main.go:111-127 | a record exists exactly when there are at least fifteen tokens, and carries the given time |
| Samples.GcOfTokensValues | main.go:111-127 | field `i` of the `gc` record is `tof64` of token `i` |
| Samples.GcOfTokensExtra | main.go:111-127 | tokens after the fifteenth are never read |
| Samples.GcOfTokensShift | main.go:110-127 | an empty token in front makes field 0 zero and moves every other field one token later |
| Samples.GcUtilOfTokens | main.go:139-150 | a record exists exactly when there are at least ten tokens, and carries the given time |
| Samples.GcUtilOfTokensValues | main.go:139-150 | field `i` of the `gcutil` record is `tof64` of token `i` |
| Samples.GcUtilOfTokensExtra | main.go:139-150 | tokens after the tenth are never read |
| Samples.GcUtilOfTokensShift | main.go:138-150 | an empty token in front makes field 0 zero and moves every other field one token later |
| Samples.ParseGc | main.go:109-133 | `parseGc` fails exactly when the line has fewer than fifteen tokens; the time is `start`, or the zero time when timestamps are ignored |
| Samples.ParseGcValues | main.go:110-127 | field `i` of a parsed `gc` line is `tof64` of its `i`-th token |
| Samples.ParseGcColumns | main.go:110-127 | the field named `GcColumns[i]` of a parsed `gc` line holds its `i`-th number |
| Samples.ParseGcExtraColumns | main.go:110-127 | appending more tokens to a `gc` line that parses leaves its record unchanged |
| Samples.ParseGcLeadingSpace | main.go:110-127 | an indented `gc` line reads 0 into its first field and shifts the others by one token, and needs only fourteen tokens after the indentation |
| Samples.ParseGcUtil | main.go:137-155 | `parseGcUtil` fails exactly when the line has fewer than ten tokens; the time is `start`, or the zero time when timestamps are ignored |
| Samples.ParseGcUtilValues | main.go:138-150 | field `i` of a parsed `gcutil` line is `tof64` of its `i`-th token |
| Samples.ParseGcUtilColumns | main.go:138-150 | the field named `GcUtilColumns[i]` of a parsed `gcutil` line holds its `i`-th number |
| Samples.ParseGcUtilExtraColumns | main.go:138-150 | appending more tokens to a `gcutil` line that parses leaves its record unchanged |
| Samples.ParseGcUtilLeadingSpace | main.go:138-150 | an indented `gcutil` line reads 0 into its first field and shifts the others by one token |
| Parser.Tick | main.go:192-194 | the clock after `k` advances stands `k` intervals after the start |
| Parser.RowsClosedForm | main.go:191-195 | reading the data rows succeeds exactly when each row `k` can be read at the clock advanced `k + 1` times; then record `k` is that reading; otherwise the failure names the first unreadable row |
| Parser.RowsFirstFailure | main.go:191-195 | reading fails at the first row that cannot be read |
| Parser.RowsAllRead | main.go:191-196 | when every row can be read, the records are those readings in row order |
| Parser.ReadRecords | main.go:187-196 | the array loop with the running clock yields exactly the specified records, or the specified error |
| Parser.Parse | main.go:182-213 | `parse` returns exactly `ParseResult(lines, ctx)` |
| Parser.RecordsSpec | main.go:187-196 | one record per line after the header; record `k` is line `k + 1` read at the start advanced `k + 1` times |
| Parser.RecordsFailure | main.go:191-195 | a failure names the first data line that cannot be read |
| Parser.ParseSucceeds | main.go:185-212 | `parse` succeeds exactly when the mode is `gc` or `gcutil`, there is a header, and every data line has enough tokens |
| Parser.ParseUnsupported | main.go:209-212 | any other mode gives the unsupported-option error and no records |
| Parser.ParseCount | main.go:187-207 | a successful parse has exactly one record per line after the header, in the mode's shape |
| Parser.ParseMalformed | main.go:191-206 | a failure names the first data line with too few tokens |
| Parser.ParseTimes | main.go:192-194 | record `k` is stamped start + (k + 1) × interval, or the zero time when timestamps are ignored |
| Parser.ParseNeverAtStart | main.go:191-194 | with a non-zero interval no record is stamped with the start itself, because the clock advances before each line is read |
| Parser.ParseZeroInterval | main.go:191-194 | with a zero interval every record is stamped with the start |
| Parser.ParseSpacing | main.go:192-194 | consecutive records are exactly one interval apart when timestamps are kept |
| Parser.ParseGcRecord | main.go:191-195 | field `i` of `gc` record `k` is `tof64` of token `i` of line `k + 1` |
| Parser.ParseGcUtilRecord | main.go:202-206 | field `i` of `gcutil` record `k` is `tof64` of token `i` of line `k + 1` |
| Parser.RecordsIgnoreHeader | main.go:189-191 | the header line never affects the records |
| Parser.ParseIgnoresHeader | main.go:189-191 | any two header lines give the same parse result |
| Series.FieldAtTagged | main.go:224-230 | the by-name lookup finds a value exactly for the tagged fields of the batch's record shape |
| Series.PointsOfTagged | main.go:223-238 | for a tagged name, every record gives one point, in record order, with X its Unix seconds and Y the field |
| Series.PointsOfUntagged | main.go:223-238 | for any other name no record gives a point |
| Series.SeriesSpec | main.go:219-264 | the series for a name is titled with it; it has one point per record for a tagged field and is empty otherwise |
| Series.Prepare | main.go:215-271 | `prepare` returns one series per requested name, in request order, duplicates included, each equal to `SeriesOf` |
| Series.GcPipeline | main.go:182-271 | from `gc` log lines, point `k` of column `i` is X = Unix seconds of start + (k + 1) × interval (or of the zero time) and Y = `tof64` of token `i` of line `k + 1` |
| Series.GcUtilPipeline | main.go:182-271 | the same for `gcutil` logs |
| Series.IgnoredTimestampsCollapse | main.go:128-130 | with timestamps ignored every point sits at X = -62135596800 |
| Series.PointSpacing | main.go:192-232 | with an interval of whole seconds, neighbouring points are that many seconds apart |
| Charts.ChartTable | main.go:366-389 | every chart in the table for the mode draws at least one series; `ChartsTitles` gives its titles |
| Charts.ChartsTitles | main.go:366-389 | both modes draw the same eight charts, and any other mode draws none |
| Charts.GcChartsTagged | main.go:367-377 | every name in the `gc` table is a tagged `gc` field |
| Charts.GcUtilChartsUntagged | main.go:378-388 | the only names in the `gcutil` table that are not `gcutil` fields are `S0U` and `S1U` |
| Charts.GcUtilSurvivorEmpty | main.go:380-381 | from `gcutil` records the second series of `Survivor0` and `Survivor1` is empty |
| Charts.GcTimeDuplicate | main.go:376 | `GcTime` asks for `FGCT` twice, so its last two series are identical |

## Left out

- `read` (main.go:157-179): reading the log file is I/O. `Parse` takes the lines as a sequence.
- `plotScatter` and `setupFont` (main.go:275-317): image drawing, PNG output and font loading.
- `run`, `setupLog` and `main`: command-line flags, logging, creating the output directory. The loop over the chart map is left out too, because Go's map order is unspecified. The chart tables themselves are modelled.
- `time.Parse` and `time.Now` for the start date (main.go:323-331): the start is a given `Time`.
- Numbers.ParseNum: accepts decimal literals only. It does not model `strconv.ParseFloat`'s `inf`, `nan`, hexadecimal forms, underscores, rounding to float64 or overflow to ±Inf. Values are exact reals, because the pipeline only copies them. In Go, `tof64` of `NaN`, `Inf` or `infinity` (any case, optionally signed) gives NaN or ±Inf, of an out-of-range literal such as `1e400` gives ±Inf, and of a hexadecimal literal such as `0x1p3` gives its value; the model reads each of these as 0, or as the exact real for the out-of-range one. So `ToF64NoDigit` holds of the model only. `jstat`'s `-` placeholder for an unavailable figure reads as 0 in both.
- Series.Point: X is the exact integer `Unix()`. The conversion to float64 is exact for every Unix second a `time.Time` can hold within ±2^53.
- The NaN `DeltaX`/`DeltaY` of each point and the unused `bars` of `metrix` are not modelled.
- The `log.Fatalf` default branch of `prepare` (main.go:265-266): it cannot be reached, because a batch is either `gc` or `gcutil` records.
- Clock.Time.Add: adds without overflow. Go's `time.Time` keeps its seconds in 64 bits, which no realistic log reaches.
- Go's `int` is taken to be 64 bits wide at main.go:327.
