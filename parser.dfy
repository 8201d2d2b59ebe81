/** `parse` (main.go:182-213): the batch parser. The first line of a `jstat`
    log is its column header and is skipped; every further line becomes one
    record, and a running clock that starts at the context's start time is
    advanced by the sampling interval before each record is built. The
    records go into an array allocated up front with one slot per data
    line. */
module Parser {
  import opened Wrappers
  import opened Tokens
  import opened Numbers
  import opened Clock
  import opened Samples

  /** The part of `appContex` that `parse` reads. `parse` receives the
      context by value and only rebinds the pointer held in its own copy, so
      the caller's start time is never changed; here the running clock is a
      local variable of `Parse` for the same reason. */
  datatype Context = Context(
    jstatOption: string,
    startDateTime: Time,
    interval: int64,
    ignoreTimestamp: bool)

  /** The value `parse` returns inside its `interface{}`: a `[]gc` or a
      `[]gcutil`. */
  datatype Batch = GcBatch(gcs: seq<GcSample>) | GcUtilBatch(utils: seq<GcUtilSample>) {

    /** The number of records. */
    function Count(): nat {
      match this
      case GcBatch(s) => |s|
      case GcUtilBatch(s) => |s|
    }

    /** The time stamp of record `k`. */
    function TimeAt(k: nat): Time
      requires k < Count()
    {
      match this
      case GcBatch(s) => s[k].time
      case GcUtilBatch(s) => s[k].time
    }
  }

  /** Why `parse` gives no records. `UnsupportedOption` is the error it
      returns for a mode other than `gc` and `gcutil`; the other two stand
      for the panics of the Go code: `make` with length -1 for a log without
      any line, and an index out of range for data line `line` when it has
      too few tokens. */
  datatype ParseError = UnsupportedOption(option: string) | NoLines | MalformedLine(line: nat)

  /** The clock after `k` advances by `interval` from `start`. */
  function Tick(start: Time, interval: int64, k: nat): (t: Time)
    ensures t.unixNanos == start.unixNanos + k * interval as int
  {
    if k == 0 then start else Tick(start, interval, k - 1).Add(interval)
  }

  /** `parseGc` with the context's timestamp switch, as a function of the
      line and the clock reading. */
  function GcLine(ignoreTimestamp: bool): (string, Time) -> Option<GcSample> {
    (line, t) => ParseGc(line, t, ignoreTimestamp)
  }

  /** `parseGcUtil` with the context's timestamp switch. */
  function GcUtilLine(ignoreTimestamp: bool): (string, Time) -> Option<GcUtilSample> {
    (line, t) => ParseGcUtil(line, t, ignoreTimestamp)
  }

  /** The records of the data lines `rows` read with `parseLine`, the clock
      standing at `clock` before the first of them: each row advances the
      clock first and is read at the new reading. `Failure(k)` names the
      first row that cannot be read. */
  function Rows<S>(parseLine: (string, Time) -> Option<S>, rows: seq<string>, clock: Time, interval: int64)
    : Result<seq<S>, nat>
    decreases |rows|
  {
    if |rows| == 0 then Success([])
    else
      var t := clock.Add(interval);
      match parseLine(rows[0], t)
      case None => Failure(0)
      case Some(v) =>
        match Rows(parseLine, rows[1..], t, interval)
        case Success(vs) => Success([v] + vs)
        case Failure(k) => Failure(k + 1)
  }

  /** `Rows` in closed form: row `k` is read at `clock` advanced `k + 1`
      times; the rows all succeed exactly when each can be read, and
      otherwise the failure names the first row that cannot. */
  lemma {:induction false} RowsClosedForm<S>(parseLine: (string, Time) -> Option<S>, rows: seq<string>,
                                             clock: Time, interval: int64)
    ensures Rows(parseLine, rows, clock, interval).Success? <==>
      forall k :: 0 <= k < |rows| ==> parseLine(rows[k], Tick(clock, interval, k + 1)).Some?
    ensures Rows(parseLine, rows, clock, interval).Success? ==>
      |Rows(parseLine, rows, clock, interval).value| == |rows| &&
      forall k :: 0 <= k < |rows| ==>
        Some(Rows(parseLine, rows, clock, interval).value[k]) == parseLine(rows[k], Tick(clock, interval, k + 1))
    ensures Rows(parseLine, rows, clock, interval).Failure? ==>
      var k := Rows(parseLine, rows, clock, interval).error;
      && k < |rows|
      && parseLine(rows[k], Tick(clock, interval, k + 1)).None?
      && forall j :: 0 <= j < k ==> parseLine(rows[j], Tick(clock, interval, j + 1)).Some?
    decreases |rows|
  {
    if |rows| > 0 {
      var t := clock.Add(interval);
      RowsClosedForm(parseLine, rows[1..], t, interval);
      forall k | 1 <= k < |rows|
        ensures Tick(t, interval, k) == Tick(clock, interval, k + 1)
      {
      }
    }
  }

  /** If every row before row `k` can be read and row `k` cannot, reading
      the rows fails at row `k`. */
  lemma RowsFirstFailure<S>(parseLine: (string, Time) -> Option<S>, rows: seq<string>,
                            clock: Time, interval: int64, k: nat)
    requires k < |rows|
    requires forall j :: 0 <= j < k ==> parseLine(rows[j], Tick(clock, interval, j + 1)).Some?
    requires parseLine(rows[k], Tick(clock, interval, k + 1)).None?
    ensures Rows(parseLine, rows, clock, interval) == Failure(k)
  {
    RowsClosedForm(parseLine, rows, clock, interval);
  }

  /** If every row can be read, reading the rows gives the records in row
      order. */
  lemma RowsAllRead<S>(parseLine: (string, Time) -> Option<S>, rows: seq<string>,
                       clock: Time, interval: int64, records: seq<S>)
    requires |records| == |rows|
    requires forall k :: 0 <= k < |rows| ==> parseLine(rows[k], Tick(clock, interval, k + 1)) == Some(records[k])
    ensures Rows(parseLine, rows, clock, interval) == Success(records)
  {
    RowsClosedForm(parseLine, rows, clock, interval);
    var r := Rows(parseLine, rows, clock, interval);
    assert r.Success?;
    assert r.value == records;
  }

  /** The records of a whole log read with `parseLine`: the first line is
      the header and is skipped, the rest are the data rows. A log without
      any line is Go's `make` panic on length -1, a row that cannot be read
      is Go's index panic; `MalformedLine` counts lines from the header. */
  function Records<S>(parseLine: (string, Time) -> Option<S>, lines: seq<string>, start: Time, interval: int64)
    : Result<seq<S>, ParseError>
  {
    if |lines| == 0 then Failure(NoLines)
    else
      match Rows(parseLine, lines[1..], start, interval)
      case Success(s) => Success(s)
      case Failure(k) => Failure(MalformedLine(k + 1))
  }

  /** What `parse(lines, ctx)` returns. */
  function ParseResult(lines: seq<string>, ctx: Context): Result<Batch, ParseError> {
    if ctx.jstatOption == "gc" then
      match Records(GcLine(ctx.ignoreTimestamp), lines, ctx.startDateTime, ctx.interval)
      case Success(s) => Success(GcBatch(s))
      case Failure(e) => Failure(e)
    else if ctx.jstatOption == "gcutil" then
      match Records(GcUtilLine(ctx.ignoreTimestamp), lines, ctx.startDateTime, ctx.interval)
      case Success(s) => Success(GcUtilBatch(s))
      case Failure(e) => Failure(e)
    else
      Failure(UnsupportedOption(ctx.jstatOption))
  }

  /** One branch of `parse`'s switch: a results array with one slot per data
      line, filled in line order while a local clock advances by `interval`
      before each line. */
  method ReadRecords<S(0)>(parseLine: (string, Time) -> Option<S>, lines: seq<string>, start: Time, interval: int64)
    returns (r: Result<seq<S>, ParseError>)
    ensures r == Records(parseLine, lines, start, interval)
  {
    if |lines| == 0 {
      return Failure(NoLines);
    }
    var results := new S[|lines| - 1];
    var clock := start;
    ghost var rows := lines[1..];
    for i := 1 to |lines|
      invariant clock == Tick(start, interval, i - 1)
      invariant forall k :: 0 <= k < i - 1 ==> parseLine(rows[k], Tick(start, interval, k + 1)) == Some(results[k])
    {
      var t := clock.Add(interval);
      assert rows[i - 1] == lines[i];
      var v := parseLine(lines[i], t);
      if v.None? {
        RowsFirstFailure(parseLine, rows, start, interval, i - 1);
        return Failure(MalformedLine(i));
      }
      results[i - 1] := v.value;
      clock := t;
    }
    RowsAllRead(parseLine, rows, start, interval, results[..]);
    return Success(results[..]);
  }

  /** `parse(lines, ctx)`. */
  method Parse(lines: seq<string>, ctx: Context) returns (r: Result<Batch, ParseError>)
    ensures r == ParseResult(lines, ctx)
  {
    if ctx.jstatOption == "gc" {
      var records := ReadRecords(GcLine(ctx.ignoreTimestamp), lines, ctx.startDateTime, ctx.interval);
      match records
      case Success(s) => r := Success(GcBatch(s));
      case Failure(e) => r := Failure(e);
    } else if ctx.jstatOption == "gcutil" {
      var records := ReadRecords(GcUtilLine(ctx.ignoreTimestamp), lines, ctx.startDateTime, ctx.interval);
      match records
      case Success(s) => r := Success(GcUtilBatch(s));
      case Failure(e) => r := Failure(e);
    } else {
      r := Failure(UnsupportedOption(ctx.jstatOption));
    }
  }

  /** Reading a whole log succeeds exactly when it has a line and every line
      after the header can be read; then there is one record per data line,
      record `k` being data line `k + 1` read at the clock advanced `k + 1`
      times from the start. */
  lemma RecordsSpec<S>(parseLine: (string, Time) -> Option<S>, lines: seq<string>, start: Time, interval: int64)
    ensures Records(parseLine, lines, start, interval).Success? <==>
      |lines| >= 1 && forall i :: 1 <= i < |lines| ==> parseLine(lines[i], Tick(start, interval, i)).Some?
    ensures Records(parseLine, lines, start, interval).Success? ==>
      |Records(parseLine, lines, start, interval).value| == |lines| - 1 &&
      forall k :: 0 <= k < |lines| - 1 ==>
        Some(Records(parseLine, lines, start, interval).value[k]) == parseLine(lines[k + 1], Tick(start, interval, k + 1))
  {
    if |lines| >= 1 {
      var rows := lines[1..];
      RowsClosedForm(parseLine, rows, start, interval);
      assert forall i :: 1 <= i < |lines| ==> lines[i] == rows[i - 1];
    }
  }

  /** A failure names the first data line that cannot be read. */
  lemma RecordsFailure<S>(parseLine: (string, Time) -> Option<S>, lines: seq<string>, start: Time, interval: int64,
                          i: nat)
    requires Records(parseLine, lines, start, interval) == Failure(MalformedLine(i))
    ensures 1 <= i < |lines|
    ensures parseLine(lines[i], Tick(start, interval, i)).None?
    ensures forall j :: 1 <= j < i ==> parseLine(lines[j], Tick(start, interval, j)).Some?
  {
    var rows := lines[1..];
    RowsClosedForm(parseLine, rows, start, interval);
    assert forall j :: 1 <= j <= i ==> lines[j] == rows[j - 1];
  }

  /** The least number of tokens a data line needs in mode `option`. */
  function ColumnsOf(option: string): nat {
    if option == "gc" then |GcColumns| else |GcUtilColumns|
  }

  /** `parse` succeeds exactly when the mode is `gc` or `gcutil`, there is
      at least a header line, and every line after the header has at least
      as many whitespace-separated tokens as the mode's record has fields. */
  lemma ParseSucceeds(lines: seq<string>, ctx: Context)
    ensures ParseResult(lines, ctx).Success? <==>
      && (ctx.jstatOption == "gc" || ctx.jstatOption == "gcutil")
      && |lines| >= 1
      && forall i :: 1 <= i < |lines| ==> |Split(lines[i])| >= ColumnsOf(ctx.jstatOption)
  {
    var start, interval, ig := ctx.startDateTime, ctx.interval, ctx.ignoreTimestamp;
    if ctx.jstatOption == "gc" {
      RecordsSpec(GcLine(ig), lines, start, interval);
      assert forall i :: 1 <= i < |lines| ==>
        (GcLine(ig)(lines[i], Tick(start, interval, i)).Some? <==> |Split(lines[i])| >= |GcColumns|);
    } else if ctx.jstatOption == "gcutil" {
      RecordsSpec(GcUtilLine(ig), lines, start, interval);
      assert forall i :: 1 <= i < |lines| ==>
        (GcUtilLine(ig)(lines[i], Tick(start, interval, i)).Some? <==> |Split(lines[i])| >= |GcUtilColumns|);
    }
  }

  /** A mode other than `gc` and `gcutil` is an error, whatever the lines. */
  lemma ParseUnsupported(lines: seq<string>, ctx: Context)
    requires ctx.jstatOption != "gc" && ctx.jstatOption != "gcutil"
    ensures ParseResult(lines, ctx) == Failure(UnsupportedOption(ctx.jstatOption))
  {
  }

  /** A successful parse has one record per line after the header, in the
      shape of the mode. */
  lemma ParseCount(lines: seq<string>, ctx: Context)
    requires ParseResult(lines, ctx).Success?
    ensures |lines| >= 1 && ParseResult(lines, ctx).value.Count() == |lines| - 1
    ensures ParseResult(lines, ctx).value.GcBatch? <==> ctx.jstatOption == "gc"
  {
    if ctx.jstatOption == "gc" {
      RecordsSpec(GcLine(ctx.ignoreTimestamp), lines, ctx.startDateTime, ctx.interval);
    } else {
      RecordsSpec(GcUtilLine(ctx.ignoreTimestamp), lines, ctx.startDateTime, ctx.interval);
    }
  }

  /** A failed parse of a supported mode names the first line after the
      header with too few tokens. */
  lemma ParseMalformed(lines: seq<string>, ctx: Context, i: nat)
    requires ParseResult(lines, ctx) == Failure(MalformedLine(i))
    ensures 1 <= i < |lines|
    ensures |Split(lines[i])| < ColumnsOf(ctx.jstatOption)
    ensures forall j :: 1 <= j < i ==> |Split(lines[j])| >= ColumnsOf(ctx.jstatOption)
  {
    var start, interval, ig := ctx.startDateTime, ctx.interval, ctx.ignoreTimestamp;
    if ctx.jstatOption == "gc" {
      RecordsFailure(GcLine(ig), lines, start, interval, i);
      assert forall j :: 1 <= j <= i ==>
        (GcLine(ig)(lines[j], Tick(start, interval, j)).Some? <==> |Split(lines[j])| >= |GcColumns|);
    } else {
      RecordsFailure(GcUtilLine(ig), lines, start, interval, i);
      assert forall j :: 1 <= j <= i ==>
        (GcUtilLine(ig)(lines[j], Tick(start, interval, j)).Some? <==> |Split(lines[j])| >= |GcUtilColumns|);
    }
  }

  /** The time of record `k`: the start advanced by `k + 1` intervals, or
      the zero time throughout when timestamps are ignored. */
  lemma ParseTimes(lines: seq<string>, ctx: Context, k: nat)
    requires ParseResult(lines, ctx).Success?
    requires k < ParseResult(lines, ctx).value.Count()
    ensures ParseResult(lines, ctx).value.TimeAt(k) ==
      if ctx.ignoreTimestamp then ZeroTime
      else Time(ctx.startDateTime.unixNanos + (k + 1) * ctx.interval as int)
  {
    var start, interval, ig := ctx.startDateTime, ctx.interval, ctx.ignoreTimestamp;
    if ctx.jstatOption == "gc" {
      RecordsSpec(GcLine(ig), lines, start, interval);
    } else {
      RecordsSpec(GcUtilLine(ig), lines, start, interval);
    }
  }

  /** With a non-zero interval no record is stamped with the start itself:
      the clock is advanced before the first data line is read. */
  lemma ParseNeverAtStart(lines: seq<string>, ctx: Context, k: nat)
    requires ParseResult(lines, ctx).Success? && !ctx.ignoreTimestamp && ctx.interval != 0
    requires k < ParseResult(lines, ctx).value.Count()
    ensures ParseResult(lines, ctx).value.TimeAt(k) != ctx.startDateTime
  {
    ParseTimes(lines, ctx, k);
    MultipleSign(k + 1, ctx.interval as int);
  }

  /** A positive multiple of `d` lies on the far side of `d` from zero. */
  lemma {:induction false} MultipleSign(n: nat, d: int)
    requires n >= 1
    ensures d > 0 ==> n * d >= d
    ensures d < 0 ==> n * d <= d
    decreases n
  {
    if n > 1 {
      MultipleSign(n - 1, d);
      assert n * d == (n - 1) * d + d;
    }
  }

  /** With a zero interval, as `--interval 0` or a millisecond count that
      wraps to zero gives, every record is stamped with the start. */
  lemma ParseZeroInterval(lines: seq<string>, ctx: Context, k: nat)
    requires ParseResult(lines, ctx).Success? && !ctx.ignoreTimestamp && ctx.interval == 0
    requires k < ParseResult(lines, ctx).value.Count()
    ensures ParseResult(lines, ctx).value.TimeAt(k) == ctx.startDateTime
  {
    ParseTimes(lines, ctx, k);
  }

  /** Consecutive records are exactly one interval apart when timestamps
      are kept. */
  lemma ParseSpacing(lines: seq<string>, ctx: Context, k: nat)
    requires ParseResult(lines, ctx).Success? && !ctx.ignoreTimestamp
    requires k + 1 < ParseResult(lines, ctx).value.Count()
    ensures ParseResult(lines, ctx).value.TimeAt(k + 1).unixNanos ==
      ParseResult(lines, ctx).value.TimeAt(k).unixNanos + ctx.interval as int
  {
    var start, interval, ig := ctx.startDateTime, ctx.interval, ctx.ignoreTimestamp;
    if ctx.jstatOption == "gc" {
      RecordsSpec(GcLine(ig), lines, start, interval);
    } else {
      RecordsSpec(GcUtilLine(ig), lines, start, interval);
    }
    assert Tick(start, interval, k + 2) == Tick(start, interval, k + 1).Add(interval);
  }

  /** Record `k` of a `gc` parse carries, field by field, `tof64` of the
      tokens of line `k + 1`. */
  lemma ParseGcRecord(lines: seq<string>, ctx: Context, k: nat, i: nat)
    requires ParseResult(lines, ctx).Success? && ctx.jstatOption == "gc"
    requires k < ParseResult(lines, ctx).value.Count() && i < |GcColumns|
    ensures k + 1 < |lines| && |Split(lines[k + 1])| >= |GcColumns|
    ensures GcValues(ParseResult(lines, ctx).value.gcs[k])[i] == ToF64(Split(lines[k + 1])[i])
  {
    var start, interval, ig := ctx.startDateTime, ctx.interval, ctx.ignoreTimestamp;
    RecordsSpec(GcLine(ig), lines, start, interval);
    ParseGcValues(lines[k + 1], Tick(start, interval, k + 1), ig, i);
  }

  /** Record `k` of a `gcutil` parse carries `tof64` of the tokens of line
      `k + 1`. */
  lemma ParseGcUtilRecord(lines: seq<string>, ctx: Context, k: nat, i: nat)
    requires ParseResult(lines, ctx).Success? && ctx.jstatOption == "gcutil"
    requires k < ParseResult(lines, ctx).value.Count() && i < |GcUtilColumns|
    ensures k + 1 < |lines| && |Split(lines[k + 1])| >= |GcUtilColumns|
    ensures GcUtilValues(ParseResult(lines, ctx).value.utils[k])[i] == ToF64(Split(lines[k + 1])[i])
  {
    var start, interval, ig := ctx.startDateTime, ctx.interval, ctx.ignoreTimestamp;
    RecordsSpec(GcUtilLine(ig), lines, start, interval);
    ParseGcUtilValues(lines[k + 1], Tick(start, interval, k + 1), ig, i);
  }

  /** The header line is never read: any two headers give the same records. */
  lemma RecordsIgnoreHeader<S>(parseLine: (string, Time) -> Option<S>, header1: string, header2: string,
                               rest: seq<string>, start: Time, interval: int64)
    ensures Records(parseLine, [header1] + rest, start, interval) == Records(parseLine, [header2] + rest, start, interval)
  {
    assert ([header1] + rest)[1..] == rest == ([header2] + rest)[1..];
  }

  /** The header line is never read: any two headers give the same result. */
  lemma ParseIgnoresHeader(header1: string, header2: string, rest: seq<string>, ctx: Context)
    ensures ParseResult([header1] + rest, ctx) == ParseResult([header2] + rest, ctx)
  {
    var start, interval, ig := ctx.startDateTime, ctx.interval, ctx.ignoreTimestamp;
    RecordsIgnoreHeader(GcLine(ig), header1, header2, rest, start, interval);
    RecordsIgnoreHeader(GcUtilLine(ig), header1, header2, rest, start, interval);
  }
}
