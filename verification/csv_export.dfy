/**
 * The per-entry row of the CSV export
 * (src/components/CounterApp/counterState.tsx:397-411): each history entry
 * becomes one row of labels. The localized date column, the quoting and
 * joining of cells and the download are not modelled.
 */
module CsvExport {
  import opened Wrappers
  import opened Domain
  import opened CounterData
  import opened CounterRuns

  /** One CSV row, without the localized date column. */
  datatype Row = Row(timestamp: int, stageKey: string, stageLabel: string, value: int,
                     action: string, gender: string, ageGroup: string)

  /** The label written when a history entry has no tag. */
  const NotRecorded: string := "未记录"

  /** The stage's key as stored in the history. */
  function StageKey(s: Stage): string {
    match s
    case PassingBy => "passingBy"
    case Noticing => "noticing"
    case Consulting => "consulting"
    case Buying => "buying"
  }

  /** The stage's display label. */
  function StageLabel(s: Stage): string {
    match s
    case PassingBy => "路过"
    case Noticing => "注意到店铺"
    case Consulting => "咨询"
    case Buying => "购买"
  }

  function ActionLabel(a: HistoryAction): string {
    if a == Inc then "增加" else "减少"
  }

  function GenderLabel(d: Option<Tag>): string {
    if d.Some? && d.value.gender == Male then "男性"
    else if d.Some? && d.value.gender == Female then "女性"
    else NotRecorded
  }

  function AgeLabel(d: Option<Tag>): string {
    if d.Some? && d.value.ageGroup == Young then "青少年及儿童(0-19)"
    else if d.Some? && d.value.ageGroup == YoungAdult then "青年(20-35)"
    else if d.Some? && d.value.ageGroup == Mature then "中老年(36+)"
    else NotRecorded
  }

  /** The row written for one history entry. */
  function RowOf(e: Entry): (r: Row)
    ensures r.timestamp == e.timestamp && r.value == e.value
    ensures r.gender == NotRecorded <==> e.demographic.None?
    ensures r.ageGroup == NotRecorded <==> e.demographic.None?
  {
    Row(e.timestamp, StageKey(e.stage), StageLabel(e.stage), e.value,
        ActionLabel(e.action), GenderLabel(e.demographic), AgeLabel(e.demographic))
  }

  /** The data rows of the export, one per history entry, in history order. */
  function Rows(h: seq<Entry>): (rows: seq<Row>)
    ensures |rows| == |h|
    ensures forall i :: 0 <= i < |h| ==> rows[i] == RowOf(h[i])
  {
    seq(|h|, i requires 0 <= i < |h| => RowOf(h[i]))
  }

  /** Reads the stage back from its label. */
  function StageOfLabel(text: string): Option<Stage> {
    if text == "路过" then Some(PassingBy)
    else if text == "注意到店铺" then Some(Noticing)
    else if text == "咨询" then Some(Consulting)
    else if text == "购买" then Some(Buying)
    else None
  }

  /** Reads the stage back from its history key. */
  function StageOfKey(key: string): Option<Stage> {
    if key == "passingBy" then Some(PassingBy)
    else if key == "noticing" then Some(Noticing)
    else if key == "consulting" then Some(Consulting)
    else if key == "buying" then Some(Buying)
    else None
  }

  /** Reads the tag back from its two label cells. */
  function TagOfLabels(gender: string, age: string): Option<Tag> {
    var g := if gender == "男性" then Some(Male) else if gender == "女性" then Some(Female) else None;
    var a := if age == "青少年及儿童(0-19)" then Some(Young)
             else if age == "青年(20-35)" then Some(YoungAdult)
             else if age == "中老年(36+)" then Some(Mature)
             else None;
    if g.Some? && a.Some? then Some(Tag(g.value, a.value)) else None
  }

  /** A row loses nothing of its entry: stage, action and tag are read back from the labels. */
  lemma RowRoundTrip(e: Entry)
    ensures StageOfLabel(RowOf(e).stageLabel) == Some(e.stage)
    ensures StageOfKey(RowOf(e).stageKey) == Some(e.stage)
    ensures TagOfLabels(RowOf(e).gender, RowOf(e).ageGroup) == e.demographic
    ensures RowOf(e).action == "增加" <==> e.action == Inc
  {
  }

  /**
   * In an export of any history the reducer builds from the initial state
   * without a load, a row's gender reads "not recorded" exactly when the row
   * is a decrement.
   */
  lemma UnrecordedExactlyOnDecrements(evs: seq<Timed>)
    requires NoLoads(evs)
    ensures var rows := Rows(Run(Initial, evs).history);
            forall i :: 0 <= i < |rows| ==> (rows[i].gender == NotRecorded <==> rows[i].action == "减少")
  {
    RunKeepsTagsOnIncrements(Initial, evs);
  }
}
