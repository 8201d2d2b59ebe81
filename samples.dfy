/** The two record shapes of the parser and the per-line record builders:
    the `gc` struct (main.go:62-79) for `jstat -gc` lines, the `gcutil` struct
    (main.go:82-94) for `jstat -gcutil` lines, and `parseGc` / `parseGcUtil`
    (main.go:109-155), which split a line at whitespace and assign the tokens
    to the fields by position.

    In Go every float field carries the tag `graph:"ScatterChart"` and the
    unexported `time` field carries none; `prepare` finds fields by name
    through reflection and charts only tagged ones. Here the lookup by name is
    an explicit table (`GcField`, `GcUtilField`) that answers exactly for the
    tagged fields. */
module Samples {
  import opened Wrappers
  import opened Tokens
  import opened Numbers
  import opened Clock

  /** One `jstat -gc` line. */
  datatype GcSample = GcSample(
    time: Time,
    S0C: real, S1C: real, S0U: real, S1U: real,
    EC: real, EU: real, OC: real, OU: real, PC: real, PU: real,
    YGC: real, YGCT: real, FGC: real, FGCT: real, GCT: real)

  /** One `jstat -gcutil` line; the first two fields hold survivor
      utilisation percentages although they share the names of the `-gc`
      capacities. */
  datatype GcUtilSample = GcUtilSample(
    time: Time,
    S0C: real, S1C: real, E: real, O: real, P: real,
    YGC: real, YGCT: real, FGC: real, FGCT: real, GCT: real)

  /** The tagged fields of `gc`, in declaration order, which is also the
      order of the tokens `parseGc` reads. */
  const GcColumns: seq<string> :=
    ["S0C", "S1C", "S0U", "S1U", "EC", "EU", "OC", "OU", "PC", "PU",
     "YGC", "YGCT", "FGC", "FGCT", "GCT"]

  /** The tagged fields of `gcutil`, in declaration and token order. */
  const GcUtilColumns: seq<string> :=
    ["S0C", "S1C", "E", "O", "P", "YGC", "YGCT", "FGC", "FGCT", "GCT"]

  /** The tagged fields of a `gc` record in declaration order. */
  function GcValues(s: GcSample): seq<real> {
    [s.S0C, s.S1C, s.S0U, s.S1U, s.EC, s.EU, s.OC, s.OU, s.PC, s.PU,
     s.YGC, s.YGCT, s.FGC, s.FGCT, s.GCT]
  }

  /** The `gc` record with the given time whose tagged fields are `values`,
      in declaration order. */
  function GcRecord(time: Time, values: seq<real>): (s: GcSample)
    requires |values| == |GcColumns|
    ensures s.time == time
  {
    GcSample(time,
      values[0], values[1], values[2], values[3], values[4],
      values[5], values[6], values[7], values[8], values[9],
      values[10], values[11], values[12], values[13], values[14])
  }

  /** The tagged fields of a `gcutil` record in declaration order. */
  function GcUtilValues(s: GcUtilSample): seq<real> {
    [s.S0C, s.S1C, s.E, s.O, s.P, s.YGC, s.YGCT, s.FGC, s.FGCT, s.GCT]
  }

  /** The `gcutil` record with the given time and tagged fields. */
  function GcUtilRecord(time: Time, values: seq<real>): (s: GcUtilSample)
    requires |values| == |GcUtilColumns|
    ensures s.time == time
  {
    GcUtilSample(time,
      values[0], values[1], values[2], values[3], values[4],
      values[5], values[6], values[7], values[8], values[9])
  }

  /** Building a record from a list of values and reading its tagged
      fields back gives that list. */
  lemma GcRecordValues(time: Time, values: seq<real>)
    requires |values| == |GcColumns|
    ensures GcValues(GcRecord(time, values)) == values
  {}

  /** The `gcutil` counterpart of `GcRecordValues`. */
  lemma GcUtilRecordValues(time: Time, values: seq<real>)
    requires |values| == |GcUtilColumns|
    ensures GcUtilValues(GcUtilRecord(time, values)) == values
  {}

  /** The value of the field called `name` of a `gc` record, when that field
      carries the chart tag (`FieldByName` plus the tag test of `prepare`);
      `None` for any other name, the untagged `time` among them. */
  function GcField(s: GcSample, name: string): (r: Option<real>)
  {
    match name
    case "S0C" => Some(s.S0C)
    case "S1C" => Some(s.S1C)
    case "S0U" => Some(s.S0U)
    case "S1U" => Some(s.S1U)
    case "EC" => Some(s.EC)
    case "EU" => Some(s.EU)
    case "OC" => Some(s.OC)
    case "OU" => Some(s.OU)
    case "PC" => Some(s.PC)
    case "PU" => Some(s.PU)
    case "YGC" => Some(s.YGC)
    case "YGCT" => Some(s.YGCT)
    case "FGC" => Some(s.FGC)
    case "FGCT" => Some(s.FGCT)
    case "GCT" => Some(s.GCT)
    case _ => None
  }

  /** The value of the tagged field `name` of a `gcutil` record. */
  function GcUtilField(s: GcUtilSample, name: string): (r: Option<real>)
  {
    match name
    case "S0C" => Some(s.S0C)
    case "S1C" => Some(s.S1C)
    case "E" => Some(s.E)
    case "O" => Some(s.O)
    case "P" => Some(s.P)
    case "YGC" => Some(s.YGC)
    case "YGCT" => Some(s.YGCT)
    case "FGC" => Some(s.FGC)
    case "FGCT" => Some(s.FGCT)
    case "GCT" => Some(s.GCT)
    case _ => None
  }

  /** Exactly the names in `GcColumns` find a tagged field. */
  lemma GcFieldTagged(s: GcSample, name: string)
    ensures GcField(s, name).Some? <==> name in GcColumns
  {}

  /** Exactly the names in `GcUtilColumns` find a tagged field. */
  lemma GcUtilFieldTagged(s: GcUtilSample, name: string)
    ensures GcUtilField(s, name).Some? <==> name in GcUtilColumns
  {}

  /** Looking up the `i`-th column name finds the `i`-th tagged field. */
  lemma GcFieldAt(s: GcSample, i: nat)
    requires i < |GcColumns|
    ensures GcField(s, GcColumns[i]) == Some(GcValues(s)[i])
  {
    var name := GcColumns[i];
    if i == 0 { assert name == "S0C"; }
    else if i == 1 { assert name == "S1C"; }
    else if i == 2 { assert name == "S0U"; }
    else if i == 3 { assert name == "S1U"; }
    else if i == 4 { assert name == "EC"; }
    else if i == 5 { assert name == "EU"; }
    else if i == 6 { assert name == "OC"; }
    else if i == 7 { assert name == "OU"; }
    else if i == 8 { assert name == "PC"; }
    else if i == 9 { assert name == "PU"; }
    else if i == 10 { assert name == "YGC"; }
    else if i == 11 { assert name == "YGCT"; }
    else if i == 12 { assert name == "FGC"; }
    else if i == 13 { assert name == "FGCT"; }
    else if i == 14 { assert name == "GCT"; }
  }

  /** Looking up the `i`-th `gcutil` column name finds the `i`-th tagged
      field. */
  lemma GcUtilFieldAt(s: GcUtilSample, i: nat)
    requires i < |GcUtilColumns|
    ensures GcUtilField(s, GcUtilColumns[i]) == Some(GcUtilValues(s)[i])
  {
    var name := GcUtilColumns[i];
    if i == 0 { assert name == "S0C"; }
    else if i == 1 { assert name == "S1C"; }
    else if i == 2 { assert name == "E"; }
    else if i == 3 { assert name == "O"; }
    else if i == 4 { assert name == "P"; }
    else if i == 5 { assert name == "YGC"; }
    else if i == 6 { assert name == "YGCT"; }
    else if i == 7 { assert name == "FGC"; }
    else if i == 8 { assert name == "FGCT"; }
    else if i == 9 { assert name == "GCT"; }
  }

  /** `tof64` applied to each of the first `n` tokens. */
  function TokenValues(tokens: seq<string>, n: nat): (r: seq<real>)
    requires n <= |tokens|
    ensures |r| == n
  {
    seq(n, k requires 0 <= k < n => ToF64(tokens[k]))
  }

  /** The record `parseGc` builds from the tokens of a line: tokens 0..14
      become the fifteen tagged fields in declaration order. Fewer tokens make Go
      index past the end of the token slice and panic; here that is `None`. */
  function GcOfTokens(tokens: seq<string>, time: Time): (r: Option<GcSample>)
    ensures r.Some? <==> |tokens| >= |GcColumns|
    ensures r.Some? ==> r.value.time == time
  {
    if |tokens| < |GcColumns| then None
    else Some(GcRecord(time, TokenValues(tokens, |GcColumns|)))
  }

  /** Field `i` of the record is `tof64` of token `i`. */
  lemma GcOfTokensValues(tokens: seq<string>, time: Time, i: nat)
    requires |tokens| >= |GcColumns| && i < |GcColumns|
    ensures GcValues(GcOfTokens(tokens, time).value)[i] == ToF64(tokens[i])
  {
    GcRecordValues(time, TokenValues(tokens, |GcColumns|));
  }

  /** Tokens past the fifteen fields are never read. */
  lemma GcOfTokensExtra(tokens: seq<string>, more: seq<string>, time: Time)
    requires |tokens| >= |GcColumns|
    ensures GcOfTokens(tokens + more, time) == GcOfTokens(tokens, time)
  {
    assert TokenValues(tokens + more, |GcColumns|) == TokenValues(tokens, |GcColumns|);
  }

  /** With an empty token in front, field 0 is 0 and field `i` takes the
      token that would otherwise have been field `i - 1`. */
  lemma GcOfTokensShift(tokens: seq<string>, time: Time, i: nat)
    requires i < |GcColumns|
    ensures GcOfTokens([""] + tokens, time).Some? <==> |tokens| >= |GcColumns| - 1
    ensures GcOfTokens([""] + tokens, time).Some? ==>
      GcValues(GcOfTokens([""] + tokens, time).value)[i] == if i == 0 then 0.0 else ToF64(tokens[i - 1])
  {
    var u := [""] + tokens;
    if |u| >= |GcColumns| {
      GcOfTokensValues(u, time, i);
      if i == 0 {
        ToF64NoDigit("");
      } else {
        assert u[i] == tokens[i - 1];
      }
    }
  }

  /** The record `parseGcUtil` builds from the tokens of a line: tokens 0..9
      become the ten tagged fields in declaration order. Fewer tokens make Go
      index past the end of the token slice and panic; here that is `None`. */
  function GcUtilOfTokens(tokens: seq<string>, time: Time): (r: Option<GcUtilSample>)
    ensures r.Some? <==> |tokens| >= |GcUtilColumns|
    ensures r.Some? ==> r.value.time == time
  {
    if |tokens| < |GcUtilColumns| then None
    else Some(GcUtilRecord(time, TokenValues(tokens, |GcUtilColumns|)))
  }

  /** Field `i` of the record is `tof64` of token `i`. */
  lemma GcUtilOfTokensValues(tokens: seq<string>, time: Time, i: nat)
    requires |tokens| >= |GcUtilColumns| && i < |GcUtilColumns|
    ensures GcUtilValues(GcUtilOfTokens(tokens, time).value)[i] == ToF64(tokens[i])
  {
    GcUtilRecordValues(time, TokenValues(tokens, |GcUtilColumns|));
  }

  /** Tokens past the ten fields are never read. */
  lemma GcUtilOfTokensExtra(tokens: seq<string>, more: seq<string>, time: Time)
    requires |tokens| >= |GcUtilColumns|
    ensures GcUtilOfTokens(tokens + more, time) == GcUtilOfTokens(tokens, time)
  {
    assert TokenValues(tokens + more, |GcUtilColumns|) == TokenValues(tokens, |GcUtilColumns|);
  }

  /** With an empty token in front, field 0 is 0 and field `i` takes the
      token that would otherwise have been field `i - 1`. */
  lemma GcUtilOfTokensShift(tokens: seq<string>, time: Time, i: nat)
    requires i < |GcUtilColumns|
    ensures GcUtilOfTokens([""] + tokens, time).Some? <==> |tokens| >= |GcUtilColumns| - 1
    ensures GcUtilOfTokens([""] + tokens, time).Some? ==>
      GcUtilValues(GcUtilOfTokens([""] + tokens, time).value)[i] == if i == 0 then 0.0 else ToF64(tokens[i - 1])
  {
    var u := [""] + tokens;
    if |u| >= |GcUtilColumns| {
      GcUtilOfTokensValues(u, time, i);
      if i == 0 {
        ToF64NoDigit("");
      } else {
        assert u[i] == tokens[i - 1];
      }
    }
  }

  /** `parseGc(line, start, ctx)`: the record of the line's tokens, stamped
      with `start`, or with the zero time when timestamps are ignored. */
  function ParseGc(line: string, start: Time, ignoreTimestamp: bool): (r: Option<GcSample>)
    ensures r.Some? <==> |Split(line)| >= |GcColumns|
    ensures r.Some? ==> r.value.time == if ignoreTimestamp then ZeroTime else start
  {
    GcOfTokens(Split(line), if ignoreTimestamp then ZeroTime else start)
  }

  /** Field `i` of a parsed line is `tof64` of the line's `i`-th
      whitespace-separated token. */
  lemma ParseGcValues(line: string, start: Time, ignoreTimestamp: bool, i: nat)
    requires ParseGc(line, start, ignoreTimestamp).Some? && i < |GcColumns|
    ensures GcValues(ParseGc(line, start, ignoreTimestamp).value)[i] == ToF64(Split(line)[i])
  {
    GcOfTokensValues(Split(line), if ignoreTimestamp then ZeroTime else start, i);
  }

  /** Looking up the field named `GcColumns[i]` in a parsed line gives the
      number in position `i` of the line. */
  lemma ParseGcColumns(line: string, start: Time, ignoreTimestamp: bool, i: nat)
    requires ParseGc(line, start, ignoreTimestamp).Some? && i < |GcColumns|
    ensures GcField(ParseGc(line, start, ignoreTimestamp).value, GcColumns[i]) == Some(ToF64(Split(line)[i]))
  {
    GcFieldAt(ParseGc(line, start, ignoreTimestamp).value, i);
    ParseGcValues(line, start, ignoreTimestamp, i);
  }

  /** Tokens after the fifteen that `parseGc` reads are ignored: appending a
      whitespace run and anything else to a line that already parses does
      not change the record. */
  lemma ParseGcExtraColumns(line: string, ws: string, extra: string, start: Time, ignoreTimestamp: bool)
    requires |ws| > 0 && AllSpace(ws)
    requires line == "" || !IsSpace(line[|line| - 1])
    requires extra == "" || !IsSpace(extra[0])
    requires ParseGc(line, start, ignoreTimestamp).Some?
    ensures ParseGc(line + ws + extra, start, ignoreTimestamp) == ParseGc(line, start, ignoreTimestamp)
  {
    SplitConcat(line, ws, extra);
    GcOfTokensExtra(Split(line), Split(extra), if ignoreTimestamp then ZeroTime else start);
  }

  /** A line that starts with whitespace yields an empty first token, so
      its first field becomes 0 and every further field takes the token one
      position to its left; such a line needs only one token fewer than the
      record has fields after its leading run. */
  lemma ParseGcLeadingSpace(ws: string, line: string, start: Time, ignoreTimestamp: bool, i: nat)
    requires |ws| > 0 && AllSpace(ws)
    requires line == "" || !IsSpace(line[0])
    requires i < |GcColumns|
    ensures ParseGc(ws + line, start, ignoreTimestamp).Some? <==> |Split(line)| >= |GcColumns| - 1
    ensures ParseGc(ws + line, start, ignoreTimestamp).Some? ==>
      GcValues(ParseGc(ws + line, start, ignoreTimestamp).value)[i] ==
        if i == 0 then 0.0 else ToF64(Split(line)[i - 1])
  {
    SplitLeadingSpace(ws, line);
    GcOfTokensShift(Split(line), if ignoreTimestamp then ZeroTime else start, i);
  }

  /** `parseGcUtil(line, start, ctx)`: the record of the line's tokens, stamped
      with `start`, or with the zero time when timestamps are ignored. */
  function ParseGcUtil(line: string, start: Time, ignoreTimestamp: bool): (r: Option<GcUtilSample>)
    ensures r.Some? <==> |Split(line)| >= |GcUtilColumns|
    ensures r.Some? ==> r.value.time == if ignoreTimestamp then ZeroTime else start
  {
    GcUtilOfTokens(Split(line), if ignoreTimestamp then ZeroTime else start)
  }

  /** Field `i` of a parsed line is `tof64` of the line's `i`-th
      whitespace-separated token. */
  lemma ParseGcUtilValues(line: string, start: Time, ignoreTimestamp: bool, i: nat)
    requires ParseGcUtil(line, start, ignoreTimestamp).Some? && i < |GcUtilColumns|
    ensures GcUtilValues(ParseGcUtil(line, start, ignoreTimestamp).value)[i] == ToF64(Split(line)[i])
  {
    GcUtilOfTokensValues(Split(line), if ignoreTimestamp then ZeroTime else start, i);
  }

  /** Looking up the field named `GcUtilColumns[i]` in a parsed line gives the
      number in position `i` of the line. */
  lemma ParseGcUtilColumns(line: string, start: Time, ignoreTimestamp: bool, i: nat)
    requires ParseGcUtil(line, start, ignoreTimestamp).Some? && i < |GcUtilColumns|
    ensures GcUtilField(ParseGcUtil(line, start, ignoreTimestamp).value, GcUtilColumns[i]) == Some(ToF64(Split(line)[i]))
  {
    GcUtilFieldAt(ParseGcUtil(line, start, ignoreTimestamp).value, i);
    ParseGcUtilValues(line, start, ignoreTimestamp, i);
  }

  /** Tokens after the ten that `parseGcUtil` reads are ignored: appending a
      whitespace run and anything else to a line that already parses does
      not change the record. */
  lemma ParseGcUtilExtraColumns(line: string, ws: string, extra: string, start: Time, ignoreTimestamp: bool)
    requires |ws| > 0 && AllSpace(ws)
    requires line == "" || !IsSpace(line[|line| - 1])
    requires extra == "" || !IsSpace(extra[0])
    requires ParseGcUtil(line, start, ignoreTimestamp).Some?
    ensures ParseGcUtil(line + ws + extra, start, ignoreTimestamp) == ParseGcUtil(line, start, ignoreTimestamp)
  {
    SplitConcat(line, ws, extra);
    GcUtilOfTokensExtra(Split(line), Split(extra), if ignoreTimestamp then ZeroTime else start);
  }

  /** A line that starts with whitespace yields an empty first token, so
      its first field becomes 0 and every further field takes the token one
      position to its left; such a line needs only one token fewer than the
      record has fields after its leading run. */
  lemma ParseGcUtilLeadingSpace(ws: string, line: string, start: Time, ignoreTimestamp: bool, i: nat)
    requires |ws| > 0 && AllSpace(ws)
    requires line == "" || !IsSpace(line[0])
    requires i < |GcUtilColumns|
    ensures ParseGcUtil(ws + line, start, ignoreTimestamp).Some? <==> |Split(line)| >= |GcUtilColumns| - 1
    ensures ParseGcUtil(ws + line, start, ignoreTimestamp).Some? ==>
      GcUtilValues(ParseGcUtil(ws + line, start, ignoreTimestamp).value)[i] ==
        if i == 0 then 0.0 else ToF64(Split(line)[i - 1])
  {
    SplitLeadingSpace(ws, line);
    GcUtilOfTokensShift(Split(line), if ignoreTimestamp then ZeroTime else start, i);
  }
}
