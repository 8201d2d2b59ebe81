/** The chart tables of `run` (main.go:366-389): for each mode, a map from
    a chart title to the field names whose series are drawn together on
    that chart. Any other mode gets an empty table, so nothing is drawn. */
module Charts {
  import opened Parser
  import opened Samples
  import opened Series

  /** The charts for `jstat -gc` (main.go:367-377). */
  const GcCharts: map<string, seq<string>> := map[
    "Survivor0" := ["S0C", "S0U"],
    "Survivor1" := ["S1C", "S1U"],
    "Eden" := ["EC", "EU"],
    "Old" := ["OC", "OU"],
    "Perm" := ["PC", "PU"],
    "GcCount" := ["YGC", "FGC"],
    "Heap" := ["S0C", "S0U", "S1C", "S1U", "EC", "EU", "OC", "OU", "PC", "PU"],
    "GcTime" := ["YGCT", "FGCT", "FGCT"]]

  /** The charts for `jstat -gcutil` (main.go:378-388). */
  const GcUtilCharts: map<string, seq<string>> := map[
    "Survivor0" := ["S0C", "S0U"],
    "Survivor1" := ["S1C", "S1U"],
    "Eden" := ["E"],
    "Old" := ["O"],
    "Perm" := ["P"],
    "GcCount" := ["YGC", "FGC"],
    "Heap" := ["S0C", "S0U", "S1C", "S1U", "E", "O", "P"],
    "GcTime" := ["YGCT", "FGCT", "FGCT"]]

  /** The eight chart titles, the same in both modes. */
  const ChartTitles: set<string> :=
    {"Survivor0", "Survivor1", "Eden", "Old", "Perm", "GcCount", "Heap", "GcTime"}

  /** The table `run` picks for the mode; every chart in it draws at least
      one series. */
  function ChartTable(jstatOption: string): (m: map<string, seq<string>>)
    ensures forall title :: title in m ==> |m[title]| > 0
  {
    if jstatOption == "gc" then GcCharts
    else if jstatOption == "gcutil" then GcUtilCharts
    else map[]
  }

  /** Both supported modes draw the same eight charts; any other mode
      draws none. */
  lemma ChartsTitles(jstatOption: string)
    ensures ChartTable(jstatOption).Keys ==
      if jstatOption == "gc" || jstatOption == "gcutil" then ChartTitles else {}
  {
  }

  /** Every name the `gc` table asks for is a tagged `gc` field, so no `gc`
      chart has an empty series. */
  lemma GcChartsTagged(title: string, i: nat)
    requires title in GcCharts && i < |GcCharts[title]|
    ensures GcCharts[title][i] in GcColumns
  {
  }

  /** The `gcutil` table asks for exactly two names that are not `gcutil`
      fields, `S0U` and `S1U`, left over from the `gc` table. */
  lemma GcUtilChartsUntagged(title: string, i: nat)
    requires title in GcUtilCharts && i < |GcUtilCharts[title]|
    ensures GcUtilCharts[title][i] !in GcUtilColumns <==>
      GcUtilCharts[title][i] == "S0U" || GcUtilCharts[title][i] == "S1U"
  {
  }

  /** Drawn from `gcutil` records, the second series of the `Survivor0`
      and `Survivor1` charts is empty; the chart shows only its first
      line. */
  lemma GcUtilSurvivorEmpty(b: Batch, title: string)
    requires b.GcUtilBatch?
    requires title == "Survivor0" || title == "Survivor1"
    ensures SeriesOf(b, GcUtilCharts[title][1]).points == []
  {
    var name := GcUtilCharts[title][1];
    assert name == "S0U" || name == "S1U";
    assert name !in GcUtilColumns;
    SeriesSpec(b, name);
  }

  /** `GcTime` asks for `FGCT` twice, so its last two series are the same. */
  lemma GcTimeDuplicate(jstatOption: string, b: Batch)
    requires jstatOption == "gc" || jstatOption == "gcutil"
    ensures |ChartTable(jstatOption)["GcTime"]| == 3
    ensures SeriesOf(b, ChartTable(jstatOption)["GcTime"][1]) == SeriesOf(b, ChartTable(jstatOption)["GcTime"][2])
  {
  }
}
