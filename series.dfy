/** `prepare` (main.go:215-271): from the parsed records, one titled series
    of points per requested field name. A record contributes a point to a
    series only when the requested name is a field carrying the chart tag;
    the point's X is the record's time in whole Unix seconds and its Y the
    field's value. The error bars (`DeltaX`, `DeltaY`, always NaN) and the
    unused `bars` of `metrix` are not part of the model. */
module Series {
  import opened Wrappers
  import opened Tokens
  import opened Numbers
  import opened Clock
  import opened Samples
  import opened Parser

  /** `chart.EPoint` without its error bars. */
  datatype Point = Point(x: int, y: real)

  /** `point`: a title and its points. */
  datatype TitledSeries = TitledSeries(title: string, points: seq<Point>)

  /** `metrix` without its unused `bars`. */
  datatype Metrix = Metrix(points: seq<TitledSeries>)

  /** Whether `name` is a tagged field of the batch's record shape. */
  predicate Tagged(b: Batch, name: string) {
    match b
    case GcBatch(_) => name in GcColumns
    case GcUtilBatch(_) => name in GcUtilColumns
  }

  /** The value of the tagged field `name` of record `k`, if the field
      exists and carries the tag. */
  function FieldAt(b: Batch, k: nat, name: string): Option<real>
    requires k < b.Count()
  {
    match b
    case GcBatch(s) => GcField(s[k], name)
    case GcUtilBatch(s) => GcUtilField(s[k], name)
  }

  /** The lookup finds a value exactly for the tagged names. */
  lemma FieldAtTagged(b: Batch, k: nat, name: string)
    requires k < b.Count()
    ensures FieldAt(b, k, name).Some? <==> Tagged(b, name)
  {
    match b
    case GcBatch(s) => GcFieldTagged(s[k], name);
    case GcUtilBatch(s) => GcUtilFieldTagged(s[k], name);
  }

  /** What record `k` adds to the series `name`: its point, or nothing. */
  function PointOf(b: Batch, k: nat, name: string): seq<Point>
    requires k < b.Count()
  {
    match FieldAt(b, k, name)
    case Some(y) => [Point(b.TimeAt(k).Unix(), y)]
    case None => []
  }

  /** The points that the first `n` records give for `name`. */
  function PointsOf(b: Batch, name: string, n: nat): seq<Point>
    requires n <= b.Count()
  {
    if n == 0 then [] else PointsOf(b, name, n - 1) + PointOf(b, n - 1, name)
  }

  /** The series `prepare` builds for `name`. */
  function SeriesOf(b: Batch, name: string): TitledSeries {
    TitledSeries(name, PointsOf(b, name, b.Count()))
  }

  /** For a tagged name every one of the first `n` records gives its point,
      in record order. */
  lemma {:induction false} PointsOfTagged(b: Batch, name: string, n: nat)
    requires n <= b.Count() && Tagged(b, name)
    ensures |PointsOf(b, name, n)| == n
    ensures forall k :: 0 <= k < n ==>
      PointsOf(b, name, n)[k].x == b.TimeAt(k).Unix() && Some(PointsOf(b, name, n)[k].y) == FieldAt(b, k, name)
  {
    if n > 0 {
      PointsOfTagged(b, name, n - 1);
      FieldAtTagged(b, n - 1, name);
      var y := FieldAt(b, n - 1, name).value;
      assert PointOf(b, n - 1, name) == [Point(b.TimeAt(n - 1).Unix(), y)];
    }
  }

  /** For a name that is no tagged field no record gives a point. */
  lemma {:induction false} PointsOfUntagged(b: Batch, name: string, n: nat)
    requires n <= b.Count() && !Tagged(b, name)
    ensures PointsOf(b, name, n) == []
  {
    if n > 0 {
      PointsOfUntagged(b, name, n - 1);
      FieldAtTagged(b, n - 1, name);
      assert PointOf(b, n - 1, name) == [];
    }
  }

  /** The series for `name` is titled `name`; for a tagged field it has one
      point per record, in record order, with X the record's time in Unix
      seconds and Y the field; for any other name it is empty. */
  lemma SeriesSpec(b: Batch, name: string)
    ensures SeriesOf(b, name).title == name
    ensures Tagged(b, name) ==>
      |SeriesOf(b, name).points| == b.Count() &&
      forall k :: 0 <= k < b.Count() ==>
        SeriesOf(b, name).points[k].x == b.TimeAt(k).Unix() && Some(SeriesOf(b, name).points[k].y) == FieldAt(b, k, name)
    ensures !Tagged(b, name) ==> SeriesOf(b, name).points == []
  {
    if Tagged(b, name) {
      PointsOfTagged(b, name, b.Count());
    } else {
      PointsOfUntagged(b, name, b.Count());
    }
  }

  /** `prepare(values, graphs)`: for each requested name in order, a pass
      over the records collects the points of that field, and the titled
      series is appended to the result. */
  method Prepare(values: Batch, graphs: seq<string>) returns (m: Metrix)
    ensures |m.points| == |graphs|
    ensures forall i :: 0 <= i < |graphs| ==> m.points[i] == SeriesOf(values, graphs[i])
  {
    m := Metrix([]);
    var points: seq<TitledSeries> := [];
    for i := 0 to |graphs|
      invariant |points| == i
      invariant forall j :: 0 <= j < i ==> points[j] == SeriesOf(values, graphs[j])
      invariant m.points == points
    {
      var g := graphs[i];
      var ep: seq<Point> := [];
      for k := 0 to values.Count()
        invariant ep == PointsOf(values, g, k)
      {
        var f := FieldAt(values, k, g);
        assert PointsOf(values, g, k + 1) == PointsOf(values, g, k) + PointOf(values, k, g);
        if f.Some? {
          ep := ep + [Point(values.TimeAt(k).Unix(), f.value)];
        }
      }
      points := points + [TitledSeries(g, ep)];
      m := m.(points := points);
    }
  }

  /** The whole pipeline for `jstat -gc`: point `k` of the series for
      column `i` has Y = `tof64` of token `i` of line `k + 1`, and X the
      Unix seconds of the start advanced `k + 1` intervals, or of the zero
      time when timestamps are ignored. */
  lemma GcPipeline(lines: seq<string>, ctx: Context, i: nat, k: nat)
    requires ctx.jstatOption == "gc" && ParseResult(lines, ctx).Success?
    requires i < |GcColumns| && k + 1 < |lines|
    ensures |Split(lines[k + 1])| >= |GcColumns|
    ensures k < |SeriesOf(ParseResult(lines, ctx).value, GcColumns[i]).points|
    ensures SeriesOf(ParseResult(lines, ctx).value, GcColumns[i]).points[k] ==
      Point(
        (if ctx.ignoreTimestamp then ZeroTime
         else Time(ctx.startDateTime.unixNanos + (k + 1) * ctx.interval as int)).Unix(),
        ToF64(Split(lines[k + 1])[i]))
  {
    var b := ParseResult(lines, ctx).value;
    ParseCount(lines, ctx);
    var name := GcColumns[i];
    SeriesSpec(b, name);
    ParseTimes(lines, ctx, k);
    ParseGcRecord(lines, ctx, k, i);
    GcFieldAt(b.gcs[k], i);
  }

  /** The whole pipeline for `jstat -gcutil`. */
  lemma GcUtilPipeline(lines: seq<string>, ctx: Context, i: nat, k: nat)
    requires ctx.jstatOption == "gcutil" && ParseResult(lines, ctx).Success?
    requires i < |GcUtilColumns| && k + 1 < |lines|
    ensures |Split(lines[k + 1])| >= |GcUtilColumns|
    ensures k < |SeriesOf(ParseResult(lines, ctx).value, GcUtilColumns[i]).points|
    ensures SeriesOf(ParseResult(lines, ctx).value, GcUtilColumns[i]).points[k] ==
      Point(
        (if ctx.ignoreTimestamp then ZeroTime
         else Time(ctx.startDateTime.unixNanos + (k + 1) * ctx.interval as int)).Unix(),
        ToF64(Split(lines[k + 1])[i]))
  {
    var b := ParseResult(lines, ctx).value;
    ParseCount(lines, ctx);
    var name := GcUtilColumns[i];
    SeriesSpec(b, name);
    ParseTimes(lines, ctx, k);
    ParseGcUtilRecord(lines, ctx, k, i);
    GcUtilFieldAt(b.utils[k], i);
  }

  /** With timestamps ignored every point of every series sits at X =
      -62135596800, the Unix seconds of Go's zero time. */
  lemma IgnoredTimestampsCollapse(lines: seq<string>, ctx: Context, name: string, k: nat)
    requires ParseResult(lines, ctx).Success? && ctx.ignoreTimestamp
    requires k < |SeriesOf(ParseResult(lines, ctx).value, name).points|
    ensures SeriesOf(ParseResult(lines, ctx).value, name).points[k].x == -62_135_596_800
  {
    var b := ParseResult(lines, ctx).value;
    SeriesSpec(b, name);
    ParseTimes(lines, ctx, k);
    ZeroTimeUnix();
  }

  /** With timestamps kept and an interval of whole seconds, neighbouring
      points of a tagged series are that many seconds apart. */
  lemma PointSpacing(lines: seq<string>, ctx: Context, name: string, k: nat)
    requires ParseResult(lines, ctx).Success? && !ctx.ignoreTimestamp
    requires ctx.interval as int % NanosPerSecond == 0
    requires k + 1 < |SeriesOf(ParseResult(lines, ctx).value, name).points|
    ensures SeriesOf(ParseResult(lines, ctx).value, name).points[k + 1].x ==
      SeriesOf(ParseResult(lines, ctx).value, name).points[k].x + ctx.interval as int / NanosPerSecond
  {
    var b := ParseResult(lines, ctx).value;
    SeriesSpec(b, name);
    ParseTimes(lines, ctx, k);
    ParseSpacing(lines, ctx, k);
    UnixAddWholeSeconds(b.TimeAt(k), ctx.interval);
  }
}
